/** `consume_number`: decimal numbers accumulated in wrapping 64-bit arithmetic. */
module Numbers {
  import opened Options

  const WORD := 0x1_0000_0000_0000_0000
  const MAX_U16 := 0xFFFF
  const MAX_U32 := 0xFFFF_FFFF

  function Pow(b: nat, e: nat): nat {
    if e == 0 then 1 else b * Pow(b, e - 1)
  }

  predicate IsDigit(c: char) { '0' <= c <= '9' }

  predicate AllDigits(s: string) { forall i :: 0 <= i < |s| ==> IsDigit(s[i]) }

  function Digit(c: char): nat
    requires IsDigit(c)
  {
    (c - '0') as int
  }

  /** The number a digit string denotes, by decimal positions. */
  function Value(ds: string): nat
    requires AllDigits(ds)
  {
    if ds == "" then 0 else Digit(ds[0]) * Pow(10, |ds| - 1) + Value(ds[1..])
  }

  /** How many digits the text starts with. */
  function DigitRun(s: string): (n: nat)
    ensures n <= |s| && AllDigits(s[..n]) && (n < |s| ==> !IsDigit(s[n]))
  {
    if s == "" || !IsDigit(s[0]) then 0
    else
      var n := 1 + DigitRun(s[1..]);
      assert forall i :: 0 < i < n ==> s[i] == s[1..][i - 1];
      assert n < |s| ==> s[n] == s[1..][n - 1];
      n
  }

  /** What the accumulator holds after the digits of `ds`, read from the right: the value
      modulo 2^64, unless it exceeded `max` at `ds` or at some suffix of it. */
  function Accumulated(ds: string, max: nat): (r: Option<nat>)
    requires AllDigits(ds)
    ensures r.Some? ==> r.value == Value(ds) % WORD
  {
    if ds == "" then Some(0)
    else if Accumulated(ds[1..], max).None? || Value(ds) % WORD > max then None
    else Some(Value(ds) % WORD)
  }

  /** `consume_number<T>` for an unsigned `T` with the given maximum: the number, if any, and the text left. */
  function Unsigned(s: string, max: nat): (Option<nat>, string) {
    var n := DigitRun(s);
    var r := if n == 0 then None else Accumulated(s[..n], max);
    (r, if r.Some? then s[n..] else s)
  }

  /** `consume_number<T>` for a signed `T` of the given range. */
  function Signed(s: string, min: int, max: int): (Option<int>, string) {
    if s == "" then (None, s)
    else
      var negative := s[0] == '-';
      var digits := if s[0] == '+' || s[0] == '-' then s[1..] else s;
      match Unsigned(digits, WORD - 1)
      case (None, _) => (None, s)
      case (Some(n), rest) =>
        var v: int := n;
        if negative then if v > -min then (None, s) else (Some(-v), rest)
        else if v > max then (None, s) else (Some(v), rest)
  }

  // ----- The loops -----

  method CountDigits(s: string) returns (endpos: nat)
    ensures endpos == DigitRun(s)
  {
    endpos := 0;
    while endpos < |s| && IsDigit(s[endpos])
      invariant endpos <= |s|
      invariant DigitRun(s) == endpos + DigitRun(s[endpos..])
    {
      assert s[endpos..][1..] == s[endpos + 1..];
      endpos := endpos + 1;
    }
  }

  method ConsumeUnsigned(s: string, max: nat) returns (r: Option<nat>, rest: string)
    requires max < WORD
    ensures (r, rest) == Unsigned(s, max)
  {
    var endpos := CountDigits(s);
    if endpos == 0 {
      return None, s;
    }
    ghost var ds := s[..endpos];
    var acc: nat, m: nat := 0, 1;
    var i := 0;
    while i < endpos
      invariant i <= endpos && Registers(ds, i, acc, m, max)
    {
      var digit := Digit(s[endpos - i - 1]);
      Turn(ds, i, acc, m, max);
      acc := (acc + (m * digit) % WORD) % WORD;
      m := (m * 10) % WORD;
      if acc > max {
        return None, s;
      }
      i := i + 1;
    }
    assert ds[0..] == ds;
    return Some(acc), s[endpos..];
  }

  /** What the registers hold after `i` digits from the right, unless the loop has ended. */
  predicate Registers(ds: string, i: nat, acc: nat, m: nat, max: nat) {
    AllDigits(ds) && i <= |ds| && m == Pow(10, i) % WORD && Accumulated(ds[|ds| - i..], max) == Some(acc)
  }

  lemma Turn(ds: string, i: nat, acc: nat, m: nat, max: nat)
    requires i < |ds| && Registers(ds, i, acc, m, max)
    ensures var acc', m' := (acc + (m * Digit(ds[|ds| - i - 1])) % WORD) % WORD, (m * 10) % WORD;
      if acc' > max then Accumulated(ds, max).None? else Registers(ds, i + 1, acc', m', max)
  {
    var k := |ds| - i - 1;
    RegisterStep(ds, k, acc, m);
    Turned(ds, i, (acc + (m * Digit(ds[k])) % WORD) % WORD, (m * 10) % WORD, max);
  }

  lemma Turned(ds: string, i: nat, acc: nat, m: nat, max: nat)
    requires AllDigits(ds) && i < |ds| && Accumulated(ds[|ds| - i..], max).Some?
    requires acc == Value(ds[|ds| - i - 1..]) % WORD && m == Pow(10, i + 1) % WORD
    ensures if acc > max then Accumulated(ds, max).None? else Registers(ds, i + 1, acc, m, max)
  {
    TestStep(ds, |ds| - i - 1, max);
  }

  /** One turn of the accumulation loop, at the digit `ds[k]`: the registers. */
  lemma RegisterStep(ds: string, k: nat, acc: nat, m: nat)
    requires AllDigits(ds) && k < |ds|
    requires acc == Value(ds[k + 1..]) % WORD && m == Pow(10, |ds| - k - 1) % WORD
    ensures (acc + (m * Digit(ds[k])) % WORD) % WORD == Value(ds[k..]) % WORD
    ensures (m * 10) % WORD == Pow(10, |ds| - k) % WORD
  {
    var here, tail, p, d := ds[k..], ds[k + 1..], Pow(10, |ds| - k - 1), Digit(ds[k]);
    assert here[1..] == tail && here[0] == ds[k];
    assert Value(here) == d * p + Value(tail);
    assert Pow(10, |ds| - k) == 10 * p;
    WrappingStep(d, p, Value(tail));
  }

  /** And the test on the accumulator. */
  lemma TestStep(ds: string, k: nat, max: nat)
    requires AllDigits(ds) && k < |ds| && Accumulated(ds[k + 1..], max).Some?
    ensures var r := Value(ds[k..]) % WORD;
      if r > max then Accumulated(ds, max).None? else Accumulated(ds[k..], max) == Some(r)
  {
    assert ds[k..][1..] == ds[k + 1..];
    if Value(ds[k..]) % WORD > max {
      NoneSpreads(ds, k, max);
    }
  }

  method ConsumeSigned(s: string, min: int, max: int) returns (r: Option<int>, rest: string)
    requires -WORD < min < 0 < max < WORD
    ensures (r, rest) == Signed(s, min, max)
  {
    if s == "" {
      return None, s;
    }
    rest := s;
    var sign := 1;
    if s[0] == '+' || s[0] == '-' {
      if s[0] == '-' { sign := -1; }
      rest := rest[1..];
    }
    var on;
    on, rest := ConsumeUnsigned(rest, WORD - 1);
    if on.None? {
      return None, s;
    }
    if sign > 0 {
      if on.value > max {
        return None, s;
      }
      return Some(on.value), rest;
    } else {
      if on.value > -min {
        return None, s;
      }
      return Some(-on.value), rest;
    }
  }

  /** Wrapping the product, the sum and the power separately changes nothing modulo 2^64. */
  lemma WrappingStep(d: nat, p: nat, v: nat)
    ensures (v % WORD + ((p % WORD) * d) % WORD) % WORD == (d * p + v) % WORD
    ensures ((p % WORD) * 10) % WORD == (10 * p) % WORD
  {
    ModMul(p, d);
    ModMul(p, 10);
    ModAdd(v, p * d);
  }

  lemma ModShift(a: int, q: int)
    ensures (a + q * WORD) % WORD == a % WORD
  {
  }

  lemma ModMul(p: nat, d: nat)
    ensures ((p % WORD) * d) % WORD == (p * d) % WORD
  {
    var q := p / WORD;
    assert p == p % WORD + q * WORD;
    assert p * d == (p % WORD) * d + (q * d) * WORD;
    ModShift((p % WORD) * d, q * d);
  }

  lemma ModAdd(a: nat, b: nat)
    ensures (a % WORD + b % WORD) % WORD == (a + b) % WORD
  {
    assert a + b == a % WORD + b % WORD + (a / WORD + b / WORD) * WORD;
    ModShift(a % WORD + b % WORD, a / WORD + b / WORD);
  }

  /** Once the accumulator is too large the whole number is refused. */
  lemma {:induction false} NoneSpreads(ds: string, k: nat, max: nat)
    requires AllDigits(ds) && k <= |ds| && Accumulated(ds[k..], max).None?
    ensures Accumulated(ds, max).None?
  {
    if k == 0 {
      assert ds[0..] == ds;
    } else {
      assert ds[1..][k - 1..] == ds[k..];
      NoneSpreads(ds[1..], k - 1, max);
    }
  }

  // ----- Facts about the value -----

  lemma TenTimes(d: nat, p: nat, v: nat, x: nat)
    ensures d * (10 * p) + (10 * v + x) == 10 * (d * p + v) + x
  {
    assert d * (10 * p) == 10 * (d * p);
  }

  /** The positional value agrees with reading the digits from the left. */
  lemma {:induction false} ValueReadsLeftToRight(ds: string, c: char)
    requires AllDigits(ds) && IsDigit(c)
    ensures AllDigits(ds + [c]) && Value(ds + [c]) == 10 * Value(ds) + Digit(c)
  {
    var whole := ds + [c];
    if ds == "" {
      assert whole[1..] == "";
      assert Pow(10, 0) == 1;
    } else {
      ValueReadsLeftToRight(ds[1..], c);
      assert whole[1..] == ds[1..] + [c];
      var d, p := Digit(ds[0]), Pow(10, |ds| - 1);
      assert Pow(10, |ds|) == 10 * p;
      assert Value(whole) == d * (10 * p) + Value(whole[1..]);
      TenTimes(d, p, Value(ds[1..]), Digit(c));
    }
  }

  lemma {:induction false} ValueBound(ds: string)
    requires AllDigits(ds)
    ensures Value(ds) < Pow(10, |ds|)
  {
    if ds == "" {
    } else {
      ValueBound(ds[1..]);
      OneMoreDigit(Digit(ds[0]), Pow(10, |ds| - 1), Value(ds[1..]));
    }
  }

  lemma OneMoreDigit(d: nat, p: nat, v: nat)
    requires d <= 9 && v < p
    ensures d * p + v < 10 * p
  {
    assert d * p <= 9 * p;
  }

  lemma {:induction false} PowMonotone(a: nat, b: nat)
    requires a <= b
    ensures 1 <= Pow(10, a) <= Pow(10, b)
  {
    if a < b {
      PowMonotone(a, b - 1);
    } else if a > 0 {
      PowMonotone(a - 1, b - 1);
    }
  }

  lemma Pow10To19()
    ensures Pow(10, 19) == 10000000000000000000
  {
    assert Pow(10, 5) == 100000;
    PowAdd(10, 5, 5);
    PowAdd(10, 10, 5);
    PowAdd(10, 15, 4);
  }

  lemma Pow10To31()
    ensures Pow(10, 19) == 10000000000000000000
    ensures Pow(10, 20) == 100000000000000000000
    ensures Pow(10, 21) == 1000000000000000000000
    ensures Pow(10, 22) == 10000000000000000000000
    ensures Pow(10, 23) == 100000000000000000000000
    ensures Pow(10, 24) == 1000000000000000000000000
    ensures Pow(10, 25) == 10000000000000000000000000
    ensures Pow(10, 26) == 100000000000000000000000000
    ensures Pow(10, 27) == 1000000000000000000000000000
    ensures Pow(10, 28) == 10000000000000000000000000000
    ensures Pow(10, 29) == 100000000000000000000000000000
    ensures Pow(10, 30) == 1000000000000000000000000000000
    ensures Pow(10, 31) == 10000000000000000000000000000000
  {
    Pow10To19();
  }

  // ----- Powers of ten modulo 2^64 -----

  /** `d * 10^i` is divisible by 2^64. */
  predicate Vanishes(d: nat, i: nat) {
    d == 0 || i >= 64 || (i == 63 && d % 2 == 0) || (i == 62 && d % 4 == 0) || (i == 61 && d % 8 == 0)
  }

  lemma {:induction false} PowAdd(b: nat, i: nat, j: nat)
    ensures Pow(b, i + j) == Pow(b, i) * Pow(b, j)
  {
    if i == 0 {
    } else {
      PowAdd(b, i - 1, j);
      assert Pow(b, i + j) == b * (Pow(b, i - 1) * Pow(b, j));
      assert b * (Pow(b, i - 1) * Pow(b, j)) == (b * Pow(b, i - 1)) * Pow(b, j);
    }
  }

  lemma {:induction false} Pow10IsPow2TimesPow5(i: nat)
    ensures Pow(10, i) == Pow(2, i) * Pow(5, i)
  {
    if i == 0 {
    } else {
      Pow10IsPow2TimesPow5(i - 1);
      var p, q := Pow(2, i - 1), Pow(5, i - 1);
      assert 10 * (p * q) == (2 * p) * (5 * q);
    }
  }

  lemma {:induction false} Pow5Mod16(i: nat)
    ensures Pow(5, i) % 16 in {1, 5, 9, 13}
  {
    if i == 0 {
    } else {
      Pow5Mod16(i - 1);
      FiveTimes(Pow(5, i - 1));
    }
  }

  lemma FiveTimes(x: nat)
    requires x % 16 in {1, 5, 9, 13}
    ensures (5 * x) % 16 in {1, 5, 9, 13}
  {
    var r := x % 16;
    DropMultiple(5 * x, 5 * (x / 16), 5 * r);
    assert r == 1 || r == 5 || r == 9 || r == 13;
  }

  lemma Pow2Literals()
    ensures Pow(2, 1) == 2 && Pow(2, 2) == 4 && Pow(2, 3) == 8 && Pow(2, 4) == 16
    ensures Pow(2, 32) == 0x1_0000_0000 && Pow(2, 64) == WORD
  {
    assert Pow(2, 8) == 0x100;
    PowAdd(2, 8, 8);
    PowAdd(2, 16, 16);
    PowAdd(2, 32, 32);
  }

  lemma {:induction false} Pow2Positive(i: nat)
    ensures Pow(2, i) > 0
  {
    if i == 0 {
    } else {
      Pow2Positive(i - 1);
    }
  }

  lemma ModOfMultiple(a: nat, b: nat, c: nat)
    requires a > 0 && c > 0
    ensures a * c > 0 && (a * b) % (a * c) == a * (b % c)
  {
    var q, r := b / c, b % c;
    assert a * b == a * (q * c + r) == q * (a * c) + a * r;
    assert 0 <= a * r < a * c;
    ModUnique(a * b, a * c, q, a * r);
  }

  lemma ModUnique(x: int, m: int, q: int, r: int)
    requires m > 0 && x == q * m + r && 0 <= r < m
    ensures x % m == r
  {
    var d := q - x / m;
    assert d * m == x % m - r;
    assert d >= 1 ==> d * m >= m;
    assert d <= -1 ==> d * m <= -m;
  }

  lemma DropMultiple(x: nat, z: nat, k: nat)
    requires x == 16 * z + k
    ensures x % 16 == k % 16 && x % 8 == k % 8 && x % 4 == k % 4 && x % 2 == k % 2
  {
    ModUnique(x, 16, z + k / 16, k % 16);
    ModUnique(x, 8, 2 * z + k / 8, k % 8);
    ModUnique(x, 4, 4 * z + k / 4, k % 4);
    ModUnique(x, 2, 8 * z + k / 2, k % 2);
  }

  /** An odd factor of the form of a power of five changes no divisibility by 2, 4, 8 or 16. */
  lemma OddFactor(d: nat, f: nat)
    requires 1 <= d <= 9 && f % 16 in {1, 5, 9, 13}
    ensures (d * f) % 16 != 0
    ensures (d * f) % 8 == 0 <==> d % 8 == 0
    ensures (d * f) % 4 == 0 <==> d % 4 == 0
    ensures (d * f) % 2 == 0 <==> d % 2 == 0
  {
    var q, r := f / 16, f % 16;
    assert d * f == 16 * (d * q) + d * r by {
      assert f == 16 * q + r;
      assert d * (16 * q + r) == 16 * (d * q) + d * r;
    }
    DropMultiple(d * f, d * q, d * r);
    SmallProducts(d, r);
  }

  lemma SmallProducts(d: nat, r: nat)
    requires 1 <= d <= 9 && r in {1, 5, 9, 13}
    ensures (d * r) % 16 != 0 && ((d * r) % 8 == 0 <==> d % 8 == 0)
    ensures ((d * r) % 4 == 0 <==> d % 4 == 0) && ((d * r) % 2 == 0 <==> d % 2 == 0)
  {
    if r == 1 {
    } else if r == 5 {
    } else if r == 9 {
    } else {
    }
  }

  lemma MultipleMod16(x: nat, c: nat)
    requires c > 0 && x % (16 * c) == 0
    ensures x % 16 == 0
  {
    var q := x / (16 * c);
    assert x == q * (16 * c) == 16 * (q * c);
  }

  /** A power of two up to 2^60 times 16 never divides a digit times a power of five. */
  lemma TermNotZero(x: nat, c: nat, i: nat)
    requires i <= 60 && x % 16 != 0 && c == Pow(2, 64 - i) && c > 0
    ensures x % c != 0
  {
    PowAdd(2, 4, 60 - i);
    Pow2Positive(60 - i);
    Pow2Literals();
    if x % c == 0 { MultipleMod16(x, Pow(2, 60 - i)); }
  }

  lemma TermZeroIff(d: nat, f: nat, i: nat)
    requires 1 <= d <= 9 && i < 64 && f % 16 in {1, 5, 9, 13}
    requires Pow(2, 64 - i) > 0
    ensures (d * f) % Pow(2, 64 - i) == 0 <==> Vanishes(d, i)
  {
    OddFactor(d, f);
    if i <= 60 {
      TermNotZero(d * f, Pow(2, 64 - i), i);
    } else {
      Pow2Literals();
    }
  }

  lemma FactorTerm(d: nat, p: nat, f: nat, c: nat)
    requires p > 0 && c > 0 && p * c == WORD
    ensures (d * (p * f)) % WORD == p * ((d * f) % c)
  {
    assert d * (p * f) == p * (d * f);
    ModOfMultiple(p, d * f, c);
  }

  /** Below position 64 the term is a multiple of 2^i, and zero exactly when it vanishes. */
  lemma TermIsMultiple(d: nat, i: nat) returns (k: nat)
    requires 1 <= d <= 9 && i < 64
    ensures (d * Pow(10, i)) % WORD == Pow(2, i) * k && k < Pow(2, 64 - i)
    ensures Pow(2, i) * Pow(2, 64 - i) == WORD
    ensures k == 0 <==> Vanishes(d, i)
  {
    Pow2Literals();
    PowAdd(2, i, 64 - i);
    Pow2Positive(i);
    Pow2Positive(64 - i);
    Pow10IsPow2TimesPow5(i);
    Pow5Mod16(i);
    FactorTerm(d, Pow(2, i), Pow(5, i), Pow(2, 64 - i));
    TermZeroIff(d, Pow(5, i), i);
    k := (d * Pow(5, i)) % Pow(2, 64 - i);
  }

  lemma VanishingTerm(d: nat, i: nat)
    requires d <= 9 && i >= 61 && Vanishes(d, i)
    ensures (d * Pow(10, i)) % WORD == 0
  {
    if d == 0 {
    } else if i < 64 {
      var k := TermIsMultiple(d, i);
    } else {
      Pow2Literals();
      PowAdd(2, 64, i - 64);
      Pow10IsPow2TimesPow5(i);
      MultipleOfWord(d, Pow(2, i - 64), Pow(5, i));
    }
  }

  lemma MultipleOfWord(d: nat, a: nat, b: nat)
    ensures (d * ((WORD * a) * b)) % WORD == 0
  {
    assert d * ((WORD * a) * b) == (d * (a * b)) * WORD;
    ModShift(0, d * (a * b));
  }

  predicate GapAt(d: nat, m: nat) {
    0x1_0000_0000 <= (d * m) % WORD <= WORD - 0x1_0000_0000
  }

  /** A quotient for each digit settles one power of ten. */
  lemma GapRow(m: nat, q: seq<nat>)
    requires |q| == 9
    requires forall d :: 1 <= d <= 9 ==> 0x1_0000_0000 <= d * m - q[d - 1] * WORD <= WORD - 0x1_0000_0000
    ensures forall d :: 1 <= d <= 9 ==> GapAt(d, m)
  {
    forall d | 1 <= d <= 9 ensures GapAt(d, m) {
      ModUnique(d * m, WORD, q[d - 1], d * m - q[d - 1] * WORD);
    }
  }

  /** The finitely many positions where the divisibility argument does not reach 2^32 yet. */
  lemma GapLiterals(d: nat, i: nat)
    requires 19 <= i <= 31 && 1 <= d <= 9
    ensures GapAt(d, Pow(10, i))
  {
    if i <= 22 {
      GapTo22(d, i);
    } else if i <= 26 {
      GapTo26(d, i);
    } else {
      GapTo31(d, i);
    }
  }

  lemma GapTo22(d: nat, i: nat)
    requires 19 <= i <= 22 && 1 <= d <= 9
    ensures GapAt(d, Pow(10, i))
  {
    Pow10To31();
    if i == 19 {
      GapRow(10000000000000000000, [0, 1, 1, 2, 2, 3, 3, 4, 4]);
    } else if i == 20 {
      GapRow(100000000000000000000, [5, 10, 16, 21, 27, 32, 37, 43, 48]);
    } else if i == 21 {
      GapRow(1000000000000000000000, [54, 108, 162, 216, 271, 325, 379, 433, 487]);
    } else {
      GapRow(10000000000000000000000, [542, 1084, 1626, 2168, 2710, 3252, 3794, 4336, 4878]);
    }
  }

  lemma GapTo26(d: nat, i: nat)
    requires 23 <= i <= 26 && 1 <= d <= 9
    ensures GapAt(d, Pow(10, i))
  {
    Pow10To31();
    if i == 23 {
      GapRow(100000000000000000000000, [5421, 10842, 16263, 21684, 27105, 32526, 37947, 43368, 48789]);
    } else if i == 24 {
      GapRow(1000000000000000000000000, [54210, 108420, 162630, 216840, 271050, 325260, 379470, 433680, 487890]);
    } else if i == 25 {
      GapRow(10000000000000000000000000,
             [542101, 1084202, 1626303, 2168404, 2710505, 3252606, 3794707, 4336808, 4878909]);
    } else {
      GapRow(100000000000000000000000000,
             [5421010, 10842021, 16263032, 21684043, 27105054, 32526065, 37947076, 43368086, 48789097]);
    }
  }

  lemma GapTo31(d: nat, i: nat)
    requires 27 <= i <= 31 && 1 <= d <= 9
    ensures GapAt(d, Pow(10, i))
  {
    Pow10To31();
    if i == 27 {
      GapRow(1000000000000000000000000000,
             [54210108, 108420217, 162630325, 216840434, 271050543, 325260651, 379470760, 433680868, 487890977]);
    } else if i == 28 {
      GapRow(10000000000000000000000000000,
             [542101086, 1084202172, 1626303258, 2168404344, 2710505431, 3252606517, 3794707603, 4336808689,
              4878909776]);
    } else if i == 29 {
      GapRow(100000000000000000000000000000,
             [5421010862, 10842021724, 16263032587, 21684043449, 27105054312, 32526065174, 37947076036, 43368086899,
              48789097761]);
    } else if i == 30 {
      GapRow(1000000000000000000000000000000,
             [54210108624, 108420217248, 162630325872, 216840434497, 271050543121, 325260651745, 379470760369,
              433680868994, 487890977618]);
    } else {
      GapRow(10000000000000000000000000000000,
             [542101086242, 1084202172485, 1626303258728, 2168404344971, 2710505431213, 3252606517456,
              3794707603699, 4336808689942, 4878909776184]);
    }
  }

  lemma TermFarFromZero(p: nat, k: nat, c: nat)
    requires p >= 0x1_0000_0000 && 0 < k < c && p * c == WORD
    ensures 0x1_0000_0000 <= p * k <= WORD - 0x1_0000_0000
  {
    assert p * k == p + p * (k - 1);
    assert p * c == p * k + p + p * (c - k - 1);
  }

  lemma GapHigh(d: nat, i: nat)
    requires 1 <= d <= 9 && 32 <= i && !Vanishes(d, i)
    ensures GapAt(d, Pow(10, i))
  {
    var k := TermIsMultiple(d, i);
    HighPow2(i);
    TermFarFromZero(Pow(2, i), k, Pow(2, 64 - i));
  }

  lemma HighPow2(i: nat)
    requires i >= 32
    ensures Pow(2, i) >= 0x1_0000_0000
  {
    var a, b := Pow(2, 32), Pow(2, i - 32);
    Pow2Literals();
    PowAdd(2, 32, i - 32);
    Pow2Positive(i - 32);
    AtLeastFactor(a, b);
  }

  lemma AtLeastFactor(a: nat, b: nat)
    requires b >= 1
    ensures a * b >= a
  {
    assert a * b == a + a * (b - 1);
  }

  /** From position 19 on, a term that does not vanish stays 2^32 away from zero modulo 2^64. */
  lemma Gap(d: nat, i: nat)
    requires 1 <= d <= 9 && 19 <= i && !Vanishes(d, i)
    ensures GapAt(d, Pow(10, i))
  {
    if i <= 31 { GapLiterals(d, i); } else { GapHigh(d, i); }
  }

  /** So adding it to a small accumulator overshoots every bound up to 2^32 - 1. */
  lemma Overshoots(d: nat, i: nat, v: nat, max: nat)
    requires 1 <= d <= 9 && 19 <= i && !Vanishes(d, i)
    requires v % WORD <= max <= MAX_U32
    ensures (d * Pow(10, i) + v) % WORD > max
  {
    Gap(d, i);
    OvershootsAt(d, Pow(10, i), v, max);
  }

  lemma OvershootsAt(d: nat, m: nat, v: nat, max: nat)
    requires GapAt(d, m) && v % WORD <= max <= MAX_U32
    ensures (d * m + v) % WORD > max
  {
    GapOvershoots(d * m, v, max);
  }

  lemma GapOvershoots(x: nat, v: nat, max: nat)
    requires 0x1_0000_0000 <= x % WORD <= WORD - 0x1_0000_0000
    requires v % WORD <= max <= MAX_U32
    ensures (x + v) % WORD > max
  {
    ModAdd(x, v);
  }

  // ----- Exactness for 8, 16 and 32 bits -----

  function Low61(ds: string): string {
    if |ds| <= 61 then ds else ds[|ds| - 61..]
  }

  /** Every digit beyond the 61st from the right contributes a multiple of 2^64. */
  predicate HighVanish(ds: string)
    requires AllDigits(ds)
  {
    forall j :: 0 <= j < |ds| - 61 ==> Vanishes(Digit(ds[j]), |ds| - 1 - j)
  }

  lemma HighVanishTail(ds: string)
    requires AllDigits(ds) && |ds| >= 62
    ensures HighVanish(ds) <==> HighVanish(ds[1..]) && Vanishes(Digit(ds[0]), |ds| - 1)
    ensures Low61(ds) == Low61(ds[1..])
  {
    var t := ds[1..];
    forall j | 0 <= j < |t| - 61
      ensures Vanishes(Digit(t[j]), |t| - 1 - j) <==> Vanishes(Digit(ds[j + 1]), |ds| - 1 - (j + 1))
    {
      assert ds[j + 1] == t[j];
    }
    if HighVanish(t) && Vanishes(Digit(ds[0]), |ds| - 1) {
      forall j | 0 <= j < |ds| - 61 ensures Vanishes(Digit(ds[j]), |ds| - 1 - j) {
        if j > 0 { assert ds[j] == t[j - 1]; }
      }
    }
  }

  /** One digit more on the left of at most 18. */
  lemma ShortStep(ds: string, max: nat)
    requires AllDigits(ds) && 0 < |ds| <= 19 && max <= MAX_U32
    requires Accumulated(ds[1..], max) == if Value(ds[1..]) <= max then Some(Value(ds[1..])) else None
    ensures Accumulated(ds, max) == if Value(ds) <= max then Some(Value(ds)) else None
  {
    ShortValue(ds);
    TailIsSmaller(Digit(ds[0]), Pow(10, |ds| - 1), Value(ds[1..]));
  }

  lemma TailIsSmaller(d: nat, p: nat, v: nat)
    ensures d * p + v >= v
  {
  }

  lemma ShortValue(ds: string)
    requires AllDigits(ds) && |ds| <= 19
    ensures Value(ds) % WORD == Value(ds) < WORD
  {
    ValueBound(ds);
    PowMonotone(|ds|, 19);
    Pow10To19();
    ModUnique(Value(ds), WORD, 0, Value(ds));
  }

  /** One digit more at a position from 19 on. */
  lemma LongStep(ds: string, max: nat)
    requires AllDigits(ds) && |ds| > 19 && max <= MAX_U32
    ensures var d, i, t := Digit(ds[0]), |ds| - 1, Accumulated(ds[1..], max);
      Accumulated(ds, max) ==
        if t.None? || (d > 0 && !Vanishes(d, i)) then None else t
  {
    var d, i, v := Digit(ds[0]), |ds| - 1, Value(ds[1..]);
    var t := Accumulated(ds[1..], max);
    if t.Some? {
      AccumulatedAtMost(ds[1..], max);
      if d > 0 && !Vanishes(d, i) {
        assert Value(ds) % WORD > max by { Overshoots(d, i, v, max); }
      } else {
        assert Value(ds) % WORD == v % WORD by { NoChange(d, i, v); }
      }
    }
  }

  lemma NoChange(d: nat, i: nat, v: nat)
    requires d == 0 || (d <= 9 && Vanishes(d, i))
    ensures (d * Pow(10, i) + v) % WORD == v % WORD
  {
    var x := d * Pow(10, i);
    if d > 0 {
      assert i >= 61;
      VanishingTerm(d, i);
    }
    assert x % WORD == 0;
    ModShift(v, x / WORD);
  }

  lemma AccumulatedAtMost(ds: string, max: nat)
    requires AllDigits(ds) && Accumulated(ds, max).Some?
    ensures Accumulated(ds, max).value <= max
  {
  }

  lemma LargeDigit(ds: string)
    requires AllDigits(ds) && |ds| > 19
    ensures if Digit(ds[0]) == 0 then Value(ds) == Value(ds[1..]) else Value(ds) > MAX_U32
  {
    var d, p := Digit(ds[0]), Pow(10, |ds| - 1);
    PowMonotone(19, |ds| - 1);
    Pow10To19();
    assert d > 0 ==> d * p >= p;
  }

  /** What `consume_number` returns on every digit string, for every bound up to 2^32 - 1. */
  lemma {:induction false} AccumulatedIs(ds: string, max: nat)
    requires AllDigits(ds) && max <= MAX_U32
    ensures Accumulated(ds, max) ==
      if HighVanish(ds) && Value(Low61(ds)) <= max then Some(Value(Low61(ds))) else None
  {
    if ds == "" {
    } else {
      AccumulatedIs(ds[1..], max);
      if |ds| <= 19 {
        ShortStep(ds, max);
      } else {
        LongStep(ds, max);
        if |ds| <= 61 {
          LargeDigit(ds);
        } else {
          HighVanishTail(ds);
        }
      }
    }
  }

  /** On at most 61 digits the parse is exact: the value when it fits, nothing when it does not. */
  lemma ExactUpTo61Digits(s: string, max: nat)
    requires max <= MAX_U32 && 1 <= DigitRun(s) <= 61
    ensures var v := Value(s[..DigitRun(s)]);
      Unsigned(s, max) == if v <= max then (Some(v), s[DigitRun(s)..]) else (None, s)
  {
    AccumulatedIs(s[..DigitRun(s)], max);
  }

  const DIGITS := "0123456789"

  /** A number in decimal. */
  function Decimal(n: nat): (ds: string)
    ensures ds != ""
  {
    if n < 10 then [DIGITS[n]] else Decimal(n / 10) + [DIGITS[n % 10]]
  }

  lemma DigitOf(k: nat)
    requires k < 10
    ensures IsDigit(DIGITS[k]) && Digit(DIGITS[k]) == k
  {
  }

  /** The reference value of a decimal is the number. */
  lemma {:induction false} ValueOfDecimal(n: nat)
    ensures AllDigits(Decimal(n)) && Value(Decimal(n)) == n
  {
    DigitOf(n % 10);
    if n < 10 {
      SingleDigit(DIGITS[n]);
    } else {
      ValueOfDecimal(n / 10);
      ValueReadsLeftToRight(Decimal(n / 10), DIGITS[n % 10]);
    }
  }

  lemma SingleDigit(c: char)
    requires IsDigit(c)
    ensures AllDigits([c]) && Value([c]) == Digit(c)
  {
    assert [c][1..] == "";
    assert Pow(10, 0) == 1;
  }

  lemma {:induction false} SizeOfDecimal(n: nat, e: nat)
    requires e > 0 && n < Pow(10, e)
    ensures |Decimal(n)| <= e
  {
    if n < 10 {
    } else {
      assert e > 1 by {
        assert Pow(10, 1) == 10 by { assert Pow(10, 0) == 1; }
      }
      assert n / 10 < Pow(10, e - 1);
      SizeOfDecimal(n / 10, e - 1);
    }
  }

  lemma {:induction false} DigitRunAt(ds: string, rest: string)
    requires AllDigits(ds) && (rest != "" ==> !IsDigit(rest[0]))
    ensures DigitRun(ds + rest) == |ds|
  {
    if ds == "" {
      assert ds + rest == rest;
    } else {
      assert (ds + rest)[1..] == ds[1..] + rest;
      DigitRunAt(ds[1..], rest);
    }
  }

  /** A number in decimal is read as itself if it fits, and refused otherwise. */
  lemma DecimalIsRead(n: nat, rest: string, max: nat)
    requires n < Pow(10, 61) && max <= MAX_U32 && (rest != "" ==> !IsDigit(rest[0]))
    ensures var s := Decimal(n) + rest;
      Unsigned(s, max) == if n <= max then (Some(n), rest) else (None, s)
  {
    var ds, s := Decimal(n), Decimal(n) + rest;
    ValueOfDecimal(n);
    SizeOfDecimal(n, 61);
    DigitRunAt(ds, rest);
    assert s[..|ds|] == ds && s[|ds|..] == rest;
    ExactUpTo61Digits(s, max);
  }

  /** Every digit beyond the 61st from the right is a zero. */
  predicate HighZero(ds: string)
    requires AllDigits(ds)
  {
    forall j :: 0 <= j < |ds| - 61 ==> ds[j] == '0'
  }

  lemma HighZeroTail(ds: string)
    requires AllDigits(ds) && |ds| >= 62
    ensures HighZero(ds) <==> HighZero(ds[1..]) && ds[0] == '0'
  {
    var t := ds[1..];
    assert forall j :: 0 < j < |ds| - 61 ==> ds[j] == t[j - 1];
    if HighZero(ds) {
      forall j | 0 <= j < |t| - 61 ensures t[j] == '0' {
        assert ds[j + 1] == t[j];
      }
    }
  }

  lemma {:induction false} ValueOfLow61(ds: string)
    requires AllDigits(ds)
    ensures if HighZero(ds) then Value(ds) == Value(Low61(ds)) else Value(ds) > MAX_U32
  {
    if |ds| > 61 {
      ValueOfLow61(ds[1..]);
      assert Low61(ds) == Low61(ds[1..]);
      assert HighZero(ds) <==> HighZero(ds[1..]) && ds[0] == '0' by { HighZeroTail(ds); }
      LargeDigit(ds);
    }
  }

  /** Exactly when the parse is right: unless a nonzero digit stands more than 61 places from
      the right, every digit up there vanishes modulo 2^64 and the rest fits. */
  lemma ExactlyWhenRight(ds: string, max: nat)
    requires AllDigits(ds) && max <= MAX_U32
    ensures Accumulated(ds, max) == (if Value(ds) <= max then Some(Value(ds)) else None)
      <==> !(!HighZero(ds) && HighVanish(ds) && Value(Low61(ds)) <= max)
  {
    AccumulatedIs(ds, max);
    ValueOfLow61(ds);
    if HighZero(ds) {
      assert HighVanish(ds);
    }
  }

  function Zeros(n: nat): (s: string)
    ensures |s| == n && forall i :: 0 <= i < n ==> s[i] == '0'
  {
    if n == 0 then "" else "0" + Zeros(n - 1)
  }

  lemma {:induction false} ValueOfZeros(n: nat)
    ensures Value(Zeros(n)) == 0
  {
    if n == 0 {
    } else {
      assert Zeros(n)[1..] == Zeros(n - 1);
      ValueOfZeros(n - 1);
    }
  }

  /** The bound is tight: an 8 and 61 zeros read as zero. */
  lemma SixtyTwoDigitsCanFail(max: nat)
    requires max <= MAX_U32
    ensures var ds := "8" + Zeros(61);
      AllDigits(ds) && Accumulated(ds, max) == Some(0) && Value(ds) > max
  {
    var ds := "8" + Zeros(61);
    ValueOfZeros(61);
    assert Low61(ds) == Zeros(61);
    AccumulatedIs(ds, max);
    ValueOfLow61(ds);
    assert Digit(ds[0]) == 8;
  }

  // ----- 64 bits and signed numbers -----

  /** The `uint64_t` form never refuses a digit run: it returns the value modulo 2^64. */
  lemma {:induction false} Unsigned64IsModular(ds: string)
    requires AllDigits(ds)
    ensures Accumulated(ds, WORD - 1) == Some(Value(ds) % WORD)
  {
    if ds == "" {
    } else {
      Unsigned64IsModular(ds[1..]);
    }
  }

  /** The mathematical reading of a signed number: sign, digits and what follows them. */
  function SignedDigits(s: string): (bool, string, string) {
    var negative := s != "" && s[0] == '-';
    var t := if s != "" && (s[0] == '+' || s[0] == '-') then s[1..] else s;
    (negative, t[..DigitRun(t)], t[DigitRun(t)..])
  }

  /** The result of the signed form in terms of the wrapped value of the digits. */
  lemma SignedIs(s: string, min: int, max: int)
    requires min < 0 < max
    ensures var (negative, ds, after) := SignedDigits(s);
      var wrapped := Value(ds) % WORD;
      Signed(s, min, max) ==
        if ds == "" || wrapped > (if negative then -min else max) then (None, s)
        else (Some(if negative then -wrapped else wrapped), after)
  {
    var (_, ds, after) := SignedDigits(s);
    Unsigned64IsModular(ds);
    if s != "" {
      var digits := if s[0] == '+' || s[0] == '-' then s[1..] else s;
      assert Unsigned(digits, WORD - 1) == if ds == "" then (None, digits) else (Some(Value(ds) % WORD), after);
    }
  }

  lemma WrappedIsExact(v: nat, limit: nat)
    requires limit < WORD
    ensures (if v % WORD > limit then None else Some(v % WORD)) == (if v <= limit then Some(v) else None)
      <==> v < WORD || v % WORD > limit
  {
  }

  /** The range of a signed type. */
  predicate SignedRange(bits: nat, min: int, max: int) {
    || (bits == 8 && min == -0x80 && max == 0x7F)
    || (bits == 16 && min == -0x8000 && max == 0x7FFF)
    || (bits == 32 && min == -0x8000_0000 && max == 0x7FFF_FFFF)
    || (bits == 64 && min == -0x8000_0000_0000_0000 && max == 0x7FFF_FFFF_FFFF_FFFF)
  }

  /** What the signed forms return: the text is untouched on failure, and the result is the
      signed value (or a refusal when it is out of range) if and only if the digits fit 64 bits
      or wrap to something still too large. For 32 and 64 bits the branch for a leading '-' is
      excluded: it negates the smallest value, which overflows. */
  lemma SignedExact(s: string, bits: nat, min: int, max: int)
    requires SignedRange(bits, min, max)
    requires s != "" && s[0] == '-' ==> bits <= 16
    ensures var (negative, ds, after) := SignedDigits(s);
      var (r, rest) := Signed(s, min, max);
      var n: int := Value(ds);
      var v := if negative then -n else n;
      var limit := if negative then -min else max;
      && (r.None? ==> rest == s)
      && (r.Some? ==> rest == after && min <= r.value <= max)
      && (ds == "" ==> r.None?)
      && (ds != "" ==> (r == (if min <= v <= max then Some(v) else None)
                        <==> Value(ds) < WORD || Value(ds) % WORD > limit))
  {
    var (negative, ds, _) := SignedDigits(s);
    SignedIs(s, min, max);
    WrappedIsExact(Value(ds), if negative then -min else max);
  }
}
