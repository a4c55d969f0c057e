/** The hash of a canonical text, with JavaScript's 32-bit arithmetic on integers. */
module StableHash {
  import opened CodeUnits
  import opened YslScanner

  const TWO_32: int := 0x1_0000_0000
  const PRIME: int := 0x1b3

  /** The two conversions of the language to 32 bits. */
  function ToUint32(n: int): (u: nat)
    ensures u < TWO_32
  {
    n % TWO_32
  }

  function ToInt32(n: int): (i: int)
    ensures -0x8000_0000 <= i < 0x8000_0000
    ensures i == ToUint32(n) || i == ToUint32(n) - TWO_32
  {
    var u := n % TWO_32;
    if u < 0x8000_0000 then u else u - TWO_32
  }

  /** Exclusive or, bit by bit. */
  function Xor(a: nat, b: nat): nat
    decreases a + b
  {
    if a == 0 && b == 0 then 0 else 2 * Xor(a / 2, b / 2) + (a % 2 + b % 2) % 2
  }

  function Imul(a: int, b: int): int {
    ToInt32(a * b)
  }

  /** A quotient converted to an integer: toward zero. */
  function Truncate(n: int, d: int): int
    requires d > 0
  {
    if n < 0 then -((-n) / d) else n / d
  }

  datatype Words = Words(high: int, low: int)

  const INITIAL: Words := Words(0x84222325, 0xcbf29ce4)

  /** One turn of the loop. */
  function Step(w: Words, u: Unit): Words {
    var low := ToInt32(Xor(ToUint32(w.low), u));
    var nextLow := Imul(low, PRIME);
    var carry := ToUint32(Truncate(nextLow, TWO_32));
    Words(ToUint32(Imul(w.high, PRIME) + carry), ToUint32(nextLow))
  }

  function Run(w: Words, s: Text): Words
    decreases |s|
  {
    if s == [] then w else Run(Step(w, s[0]), s[1..])
  }

  /** toString(16). */
  function ToHex(n: nat): (t: Text)
    ensures t != []
  {
    if n < 16 then [HexDigit(n)] else ToHex(n / 16) + [HexDigit(n % 16)]
  }

  /** padStart(length, '0'). */
  function PadStart(t: Text, length: nat): Text
    decreases length - |t|
  {
    if |t| >= length then t else PadStart([ZERO] + t, length)
  }

  function HashWords(w: Words): Text {
    PadStart(ToHex(ToUint32(w.high)), 8) + PadStart(ToHex(ToUint32(w.low)), 8)
  }

  function Hash(s: Text): Text {
    HashWords(Run(INITIAL, s))
  }

  /** The loop. */
  method ComputeHash(input: Text) returns (hash: Text)
    ensures hash == Hash(input)
  {
    hide Xor, ToInt32, Truncate, ToHex, PadStart;
    var high, low := 0x84222325, 0xcbf29ce4;
    for index := 0 to |input|
      invariant Run(Words(high, low), input[index..]) == Run(INITIAL, input)
      invariant 0 <= high < TWO_32 && 0 <= low < TWO_32
    {
      assert input[index..][1..] == input[index + 1..];
      low := ToInt32(Xor(ToUint32(low), input[index]));
      var nextLow := Imul(low, PRIME);
      var carry := ToUint32(Truncate(nextLow, TWO_32));
      high := ToUint32(Imul(high, PRIME) + carry);
      low := ToUint32(nextLow);
    }
    assert input[|input|..] == [];
    hash := PadStart(ToHex(high), 8) + PadStart(ToHex(low), 8);
  }

  // ---------------------------------------------------------------- exclusive or

  lemma XorHalves(a: nat, b: nat)
    ensures Xor(a, b) == 2 * Xor(a / 2, b / 2) + (a % 2 + b % 2) % 2
    ensures Xor(a, b) / 2 == Xor(a / 2, b / 2) && Xor(a, b) % 2 == (a % 2 + b % 2) % 2
  {
  }

  lemma BitTwice(a: nat, b: nat)
    requires a < 2 && b < 2
    ensures ((a + b) % 2 + b) % 2 == a
  {
  }

  /** A second exclusive or with the same operand takes the first one back. */
  lemma {:induction false} XorTwice(a: nat, b: nat)
    ensures Xor(Xor(a, b), b) == a
    decreases a + b
  {
    if a + b > 0 {
      hide Xor;
      XorHalves(a, b);
      var x := Xor(a, b);
      XorHalves(x, b);
      XorTwice(a / 2, b / 2);
      assert Xor(x, b) / 2 == a / 2;
      assert Xor(x, b) % 2 == a % 2 by { BitTwice(a % 2, b % 2); }
    }
  }

  lemma {:induction false} XorCommutes(a: nat, b: nat)
    ensures Xor(a, b) == Xor(b, a)
    decreases a + b
  {
    if a + b > 0 {
      hide Xor;
      XorHalves(a, b);
      XorHalves(b, a);
      XorCommutes(a / 2, b / 2);
    }
  }

  /** Different operands give different results. */
  lemma XorInjective(a: nat, b: nat, c: nat)
    ensures Xor(a, c) == Xor(b, c) ==> a == b
    ensures Xor(c, a) == Xor(c, b) ==> a == b
  {
    XorTwice(a, c);
    XorTwice(b, c);
    XorCommutes(a, c);
    XorCommutes(b, c);
  }

  function Power2(k: nat): nat {
    if k == 0 then 1 else 2 * Power2(k - 1)
  }

  lemma {:induction false} XorBound(a: nat, b: nat, k: nat)
    requires a < Power2(k) && b < Power2(k)
    ensures Xor(a, b) < Power2(k)
    decreases k
  {
    if k > 0 {
      XorHalves(a, b);
      hide Xor;
      XorBound(a / 2, b / 2, k - 1);
    }
  }

  lemma XorBound32(a: nat, b: nat)
    requires a < TWO_32 && b < TWO_32
    ensures Xor(a, b) < TWO_32
  {
    assert Power2(8) == 0x100;
    assert Power2(16) == 0x1_0000 by { assert Power2(12) == 0x1000; }
    assert Power2(24) == 0x100_0000 by { assert Power2(20) == 0x10_0000; }
    assert Power2(32) == TWO_32 by { assert Power2(28) == 0x1000_0000; }
    XorBound(a, b, 32);
  }

  // ---------------------------------------------------------------- one step

  lemma SignIsIrrelevant(i: int, m: int, k: int)
    requires i == m + k * TWO_32
    ensures (i * PRIME) % TWO_32 == (m * PRIME) % TWO_32
  {
    assert i * PRIME == m * PRIME + (k * PRIME) * TWO_32;
    ModPlus(m * PRIME, k * PRIME);
  }

  lemma ModPlus(n: int, k: int)
    ensures (n + k * TWO_32) % TWO_32 == n % TWO_32
  {
    var q, r := n / TWO_32, n % TWO_32;
    assert n + k * TWO_32 == (q + k) * TWO_32 + r;
  }

  lemma ToInt32Keeps(n: int)
    ensures ToUint32(ToInt32(n)) == ToUint32(n)
  {
  }

  /** The carry is always 0, so that neither word ever depends on the other. */
  lemma StepIsIndependent(w: Words, u: Unit)
    requires 0 <= w.low < TWO_32
    ensures Truncate(Imul(ToInt32(Xor(w.low, u)), PRIME), TWO_32) == 0
    ensures Step(w, u) == Words((w.high * PRIME) % TWO_32, (Xor(w.low, u) * PRIME) % TWO_32)
  {
    hide Xor;
    XorBound32(w.low, u);
    var x := Xor(w.low, u);
    var low := ToInt32(x);
    assert ToUint32(w.low) == w.low && ToUint32(x) == x;
    var nextLow := Imul(low, PRIME);
    var sum := Imul(w.high, PRIME);
    assert ToUint32(nextLow) == (x * PRIME) % TWO_32 by {
      SignIsIrrelevant(low, x, if low == x then 0 else -1);
      ToInt32Keeps(low * PRIME);
    }
    assert ToUint32(sum) == (w.high * PRIME) % TWO_32 by { ToInt32Keeps(w.high * PRIME); }
    assert Truncate(nextLow, TWO_32) == 0;
  }

  // PRIME * INVERSE == 1 + QUOTIENT * 2^32: the prime is invertible modulo 2^32.
  const INVERSE: int := 0xaff6957b
  const QUOTIENT: int := 299

  lemma TimesPrimeInverse(x: int)
    requires 0 <= x < TWO_32
    ensures ((x * PRIME) % TWO_32 * INVERSE) % TWO_32 == x
  {
    var a, r := x * PRIME / TWO_32, (x * PRIME) % TWO_32;
    assert x * PRIME == a * TWO_32 + r;
    assert r * INVERSE == x + (x * QUOTIENT - a * INVERSE) * TWO_32;
    ModPlus(x, x * QUOTIENT - a * INVERSE);
  }

  predicate InRange(w: Words) {
    0 <= w.high < TWO_32 && 0 <= w.low < TWO_32
  }

  /** A step is a bijection of the low word for every unit, and separates units for every low word. */
  lemma StepIsInjective(w: Words, v: Words, a: Unit, b: Unit)
    requires InRange(w) && InRange(v) && Step(w, a).low == Step(v, b).low
    ensures a == b ==> w.low == v.low
    ensures w.low == v.low ==> a == b
  {
    hide Step, Xor;
    StepIsIndependent(w, a);
    StepIsIndependent(v, b);
    XorBound32(w.low, a);
    XorBound32(v.low, b);
    TimesPrimeInverse(Xor(w.low, a));
    TimesPrimeInverse(Xor(v.low, b));
    assert Xor(w.low, a) == Xor(v.low, b);
    XorInjective(w.low, v.low, a);
    XorInjective(a, b, w.low);
  }

  lemma StepStaysInRange(w: Words, u: Unit)
    ensures InRange(Step(w, u))
  {
  }

  // ---------------------------------------------------------------- runs

  lemma {:induction false} RunConcat(w: Words, s: Text, t: Text)
    ensures Run(w, s + t) == Run(Run(w, s), t)
    decreases |s|
  {
    hide Step;
    if s == [] {
      assert s + t == t;
    } else {
      assert (s + t)[0] == s[0] && (s + t)[1..] == s[1..] + t;
      RunConcat(Step(w, s[0]), s[1..], t);
    }
  }

  lemma {:induction false} RunStaysInRange(w: Words, s: Text)
    requires InRange(w)
    ensures InRange(Run(w, s))
    decreases |s|
  {
    hide Step;
    if s != [] {
      StepStaysInRange(w, s[0]);
      RunStaysInRange(Step(w, s[0]), s[1..]);
    }
  }

  /** The high word depends only on the number of units. */
  lemma {:induction false} HighDependsOnLength(w: Words, v: Words, s: Text, t: Text)
    requires InRange(w) && InRange(v) && w.high == v.high && |s| == |t|
    ensures Run(w, s).high == Run(v, t).high
    decreases |s|
  {
    hide Step, Xor;
    if s != [] {
      StepStaysInRange(w, s[0]);
      StepStaysInRange(v, t[0]);
      StepIsIndependent(w, s[0]);
      StepIsIndependent(v, t[0]);
      HighDependsOnLength(Step(w, s[0]), Step(v, t[0]), s[1..], t[1..]);
    }
  }

  /** Different low words stay different under the same input. */
  lemma {:induction false} RunKeepsDifference(w: Words, v: Words, s: Text)
    requires InRange(w) && InRange(v) && w.low != v.low
    ensures Run(w, s).low != Run(v, s).low
    decreases |s|
  {
    hide Step;
    if s != [] {
      StepStaysInRange(w, s[0]);
      StepStaysInRange(v, s[0]);
      if Step(w, s[0]).low == Step(v, s[0]).low { StepIsInjective(w, v, s[0], s[0]); }
      RunKeepsDifference(Step(w, s[0]), Step(v, s[0]), s[1..]);
    }
  }

  // ---------------------------------------------------------------- hexadecimal

  /** Eight fixed digits. */
  function Fixed(n: nat, digits: nat): (t: Text)
    ensures |t| == digits
  {
    if digits == 0 then [] else Fixed(n / 16, digits - 1) + [HexDigit(n % 16)]
  }

  function Power16(k: nat): nat {
    if k == 0 then 1 else 16 * Power16(k - 1)
  }

  lemma {:induction false} PadSnoc(t: Text, u: Unit, length: nat)
    ensures PadStart(t + [u], length + 1) == PadStart(t, length) + [u]
    decreases length - |t|
  {
    if |t| < length {
      PadSnoc([ZERO] + t, u, length);
      assert [ZERO] + (t + [u]) == [ZERO] + t + [u];
    }
  }

  lemma {:induction false} PadNothing(length: nat)
    ensures PadStart([ZERO], length + 1) == PadStart([], length) + [ZERO]
  {
    PadSnoc([], ZERO, length);
    assert [] + [ZERO] == [ZERO];
  }

  /** Padding the shortest hexadecimal form gives exactly the fixed digits. */
  lemma {:induction false} PaddedHexIsFixed(n: nat, digits: nat)
    requires n < Power16(digits) && digits > 0
    ensures PadStart(ToHex(n), digits) == Fixed(n, digits)
    decreases digits
  {
    if n < 16 {
      PadSnoc([], HexDigit(n), digits - 1);
      assert [] + [HexDigit(n)] == [HexDigit(n)];
      ZerosAreFixed(digits - 1);
      assert n / 16 == 0 && n % 16 == n;
    } else {
      PaddedHexIsFixed(n / 16, digits - 1);
      PadSnoc(ToHex(n / 16), HexDigit(n % 16), digits - 1);
    }
  }

  lemma {:induction false} ZerosAreFixed(digits: nat)
    ensures PadStart([], digits) == Fixed(0, digits)
  {
    if digits > 0 {
      ZerosAreFixed(digits - 1);
      PadNothing(digits - 1);
      assert PadStart([], digits) == PadStart([ZERO] + [], digits) == PadStart([ZERO], digits) by {
        assert [ZERO] + [] == [ZERO];
      }
    }
  }

  lemma {:induction false} FixedInjective(m: nat, n: nat, digits: nat)
    requires m < Power16(digits) && n < Power16(digits) && Fixed(m, digits) == Fixed(n, digits)
    ensures m == n
  {
    if digits > 0 {
      var s, t := Fixed(m, digits), Fixed(n, digits);
      assert s[digits - 1] == t[digits - 1] && s[..digits - 1] == t[..digits - 1];
      FixedInjective(m / 16, n / 16, digits - 1);
    }
  }

  lemma Power16Of8()
    ensures Power16(8) == TWO_32
  {
    assert Power16(4) == 0x1_0000;
  }

  /** The hash is the two words in sixteen hexadecimal digits. */
  lemma HashIsFixed(s: Text)
    ensures InRange(Run(INITIAL, s))
    ensures Hash(s) == Fixed(Run(INITIAL, s).high, 8) + Fixed(Run(INITIAL, s).low, 8)
    ensures |Hash(s)| == 16
  {
    hide Run, PadStart, ToHex, Fixed;
    RunStaysInRange(INITIAL, s);
    Power16Of8();
    PaddedHexIsFixed(Run(INITIAL, s).high, 8);
    PaddedHexIsFixed(Run(INITIAL, s).low, 8);
  }

  /** Two texts of the same length that differ in exactly one unit have different hashes. */
  lemma OneUnitNeverCollides(s: Text, t: Text, i: nat)
    requires |s| == |t| && i < |s| && s[i] != t[i]
    requires forall j | 0 <= j < |s| && j != i :: s[j] == t[j]
    ensures Hash(s) != Hash(t)
  {
    hide Run, Step, Fixed;
    var before, after := s[..i], s[i + 1..];
    assert s == before + ([s[i]] + after) && t == before + ([t[i]] + after);
    var w := Run(INITIAL, before);
    RunConcat(INITIAL, before, [s[i]] + after);
    RunConcat(INITIAL, before, [t[i]] + after);
    RunFirst(w, s[i], after);
    RunFirst(w, t[i], after);
    RunStaysInRange(INITIAL, before);
    StepStaysInRange(w, s[i]);
    StepStaysInRange(w, t[i]);
    if Step(w, s[i]).low == Step(w, t[i]).low { StepIsInjective(w, w, s[i], t[i]); }
    RunKeepsDifference(Step(w, s[i]), Step(w, t[i]), after);
    LowWordIsVisible(s, t);
  }

  lemma RunFirst(w: Words, u: Unit, s: Text)
    ensures Run(w, [u] + s) == Run(Step(w, u), s)
  {
    hide Step;
    assert ([u] + s)[1..] == s;
  }

  lemma LowWordIsVisible(s: Text, t: Text)
    requires Run(INITIAL, s).low != Run(INITIAL, t).low
    ensures Hash(s) != Hash(t)
  {
    hide Run, Fixed, Hash;
    HashIsFixed(s);
    HashIsFixed(t);
    RunStaysInRange(INITIAL, s);
    RunStaysInRange(INITIAL, t);
    var a, b := Fixed(Run(INITIAL, s).low, 8), Fixed(Run(INITIAL, t).low, 8);
    Power16Of8();
    if Hash(s) == Hash(t) {
      assert a == Hash(s)[8..] && b == Hash(t)[8..];
      FixedInjective(Run(INITIAL, s).low, Run(INITIAL, t).low, 8);
    }
  }
}
