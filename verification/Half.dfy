/** The emitted narrowing conversions from binary32, and rounding to nearest with ties to even. */
module Half {
  import opened Powers

  datatype Format = Binary16 | BFloat16

  /**
   * The magnitude of a binary32 word without its sign, in units of 2^-149; an infinity counts as the next power of two.
   */
  function Magnitude32(u: nat): nat {
    var e, m := u / 0x80_0000, u % 0x80_0000;
    if e == 0 then m else (0x80_0000 + m) * Pow2(e - 1)
  }

  /** The magnitude of a binary16 code without its sign, in units of 2^-149. */
  function Magnitude16(h: nat): nat {
    var e, m := h / 1024, h % 1024;
    (if e == 0 then m else (1024 + m) * Pow2(e - 1)) * Pow2(125)
  }

  function Value(f: Format, h: nat): nat {
    match f
    case Binary16 => Magnitude16(h)
    case BFloat16 => Magnitude32(h * 0x1_0000)
  }

  /** The code of infinity, the largest magnitude of the format. */
  function Top(f: Format): nat {
    match f
    case Binary16 => 0x7c00
    case BFloat16 => 0x7f80
  }

  function Gap(v: nat, w: nat): nat {
    if v < w then w - v else v - w
  }

  /**
   * Round to nearest, ties to even: no code is closer to `v`, and an equally close other code makes `h` the even one.
   */
  ghost predicate Nearest(f: Format, v: nat, h: nat) {
    h <= Top(f) && forall g: nat :: g <= Top(f) ==> Preferred(f, v, h, g)
  }

  ghost predicate Preferred(f: Format, v: nat, h: nat, g: nat) {
    Gap(v, Value(f, h)) <= Gap(v, Value(f, g)) && (g != h && Gap(v, Value(f, h)) == Gap(v, Value(f, g)) ==> h % 2 == 0)
  }

  // What the codes stand for

  /** Magnitudes start at zero, and each code adds one unit of its exponent; one is 2^149 units. */
  lemma Magnitudes(u: nat)
    ensures Magnitude32(0) == 0 && Magnitude32(0x3f80_0000) == Pow2(149)
    ensures var e := u / 0x80_0000;
            Magnitude32(u + 1) == Magnitude32(u) + if e == 0 then 1 else Pow2(e - 1)
  {
    hide Pow2, Steps;
    SteppedMagnitude32(0);
    SteppedMagnitude32(u);
    SteppedMagnitude32(u + 1);
    StepsNext(u, 0x80_0000);
    SmallPowers();
    Pow2Sum(23, 126);
    OneIs();
  }

  lemma OneIs()
    ensures Magnitude32(0) == 0 && Magnitude32(0x3f80_0000) == 0x80_0000 * Pow2(126)
  {
    hide Pow2;
  }

  lemma SteppedMagnitude32(u: nat)
    ensures Magnitude32(u) == Steps(u, 0x80_0000)
  {
    hide Pow2;
  }

  /** A finite binary16 code stands for what the binary32 word with its fields moved and its exponent rebased does. */
  lemma Widened(h: nat)
    requires h < 0x7c00
    ensures var e, m := h / 1024, h % 1024;
            if e > 0 then Value(Binary16, h) == Magnitude32((e + 112) * 0x80_0000 + m * 0x2000)
            else Value(Binary16, h) == m * Pow2(125)
  {
    var e, m := h / 1024, h % 1024;
    if e > 0 {
      WidenedFields(e, m);
      CodeValue(h, e, m, Pow2(e - 1));
      SmallPowers();
      Pow2Sum(e - 1, 125);
      Pow2Sum(13, e + 111);
      WidenedScale(1024 + m, Pow2(e - 1), Pow2(125), Pow2(e + 111));
    }
  }

  lemma WidenedFields(e: nat, m: nat)
    requires 0 < e && m < 1024
    ensures Magnitude32((e + 112) * 0x80_0000 + m * 0x2000) == (0x80_0000 + m * 0x2000) * Pow2(e + 111)
  {
    hide Pow2;
    var u := (e + 112) * 0x80_0000 + m * 0x2000;
    assert u / 0x80_0000 == e + 112 && u % 0x80_0000 == m * 0x2000;
  }

  lemma WidenedScale(k: nat, p: nat, c: nat, t: nat)
    requires p * c == 8192 * t
    ensures (k * p) * c == (k * 8192) * t
  {
    Regroup(k, p, c);
    Regroup(k, 8192, t);
  }

  /** Exactly between two neighbouring codes the even one is nearest; otherwise no code is nearer. */
  lemma TiesToEven(f: Format, v: nat, a: nat, h: nat)
    requires Nearest(f, v, h) && a < Top(f)
    ensures v + v == Value(f, a) + Value(f, a + 1) ==> h == if a % 2 == 0 then a else a + 1
    ensures forall g: nat :: g <= Top(f) ==>
              var x, y := Value(f, h), Value(f, g);
              (if v < x then x - v else v - x) <= if v < y then y - v else v - y
  {
    hide Value;
    ValueOrdered(f, a, a + 1);
    forall g: nat | g <= Top(f)
      ensures Gap(v, Value(f, h)) <= Gap(v, Value(f, g))
    {
      assert Preferred(f, v, h, g);
    }
    if v + v == Value(f, a) + Value(f, a + 1) {
      assert Preferred(f, v, h, a) && Preferred(f, v, h, a + 1);
      if h < a {
        ValueOrdered(f, h, a);
      } else if h > a + 1 {
        ValueOrdered(f, a + 1, h);
      }
    }
  }

  // Codes are ordered like their values

  lemma ScaleLess(a: nat, b: nat, m: nat)
    requires a < b && m > 0
    ensures a * m < b * m
  {
  }

  /** One significand step adds the exponent's unit; the last one lands on the next exponent's first code. */
  lemma Significand(w: nat, m: nat, p: nat)
    requires m < w
    ensures (w + (m + 1)) * p == (w + m) * p + p
    ensures m + 1 == w ==> (w + 0) * (2 * p) == (w + m) * p + p
  {
    if m + 1 == w {
      assert (w + m) * p + p == (w + m + 1) * p;
      assert (w + m + 1) * p == (2 * w) * p;
    }
  }

  /** One step of a code is one step of its scaled significand. */
  lemma MagnitudeNext(u: nat, w: nat, e: nat, m: nat)
    requires w > 1 && e == u / w && m == u % w
    ensures (u + 1) / w == (if m + 1 == w then e + 1 else e) && (u + 1) % w == (if m + 1 == w then 0 else m + 1)
  {
    Divided(u, w, e, m);
    if m + 1 == w {
      assert u + 1 == (e + 1) * w;
      DivisionUnique(e + 1, 0, w);
    } else {
      DivisionUnique(e, m + 1, w);
    }
  }

  /** The unscaled significand value of a code with `w` significand steps per exponent. */
  function Steps(u: nat, w: nat): nat
    requires w > 1
  {
    Scaled(u / w, u % w, w)
  }

  function Scaled(e: nat, m: nat, w: nat): nat {
    if e == 0 then m else (w + m) * Pow2(e - 1)
  }

  lemma ScaledNext(e: nat, m: nat, w: nat)
    requires m < w
    ensures (if m + 1 == w then Scaled(e + 1, 0, w) else Scaled(e, m + 1, w)) ==
            Scaled(e, m, w) + if e == 0 then 1 else Pow2(e - 1)
  {
    var p := if e == 0 then 1 else Pow2(e - 1);
    assert Pow2(e) == if e == 0 then 1 else 2 * p;
    hide Pow2;
    Significand(w, m, p);
  }

  /** Consecutive codes are one unit of their exponent apart, across exponents too. */
  lemma StepsNext(u: nat, w: nat)
    requires w > 1
    ensures Steps(u + 1, w) == Steps(u, w) + (if u / w == 0 then 1 else Pow2(u / w - 1))
  {
    hide Pow2, Scaled;
    var e, m := u / w, u % w;
    MagnitudeNext(u, w, e, m);
    ScaledNext(e, m, w);
  }

  lemma {:induction false} StepsOrdered(a: nat, b: nat, w: nat)
    requires w > 1 && a < b
    ensures Steps(a, w) < Steps(b, w)
    decreases b
  {
    StepsNext(b - 1, w);
    if a < b - 1 {
      StepsOrdered(a, b - 1, w);
    }
  }

  lemma ValueOrdered(f: Format, a: nat, b: nat)
    requires a < b
    ensures Value(f, a) < Value(f, b)
  {
    match f
    case Binary16 =>
      StepsOrdered(a, b, 1024);
      ScaleLess(Steps(a, 1024), Steps(b, 1024), Pow2(125));
    case BFloat16 => StepsOrdered(a * 0x1_0000, b * 0x1_0000, 0x80_0000);
  }

  lemma ValueAtMost(f: Format, a: nat, b: nat)
    requires a <= b
    ensures Value(f, a) <= Value(f, b)
  {
    if a < b {
      ValueOrdered(f, a, b);
    }
  }

  // Nearest codes

  /** Between two neighbouring codes the closer one is nearest, and the even one on a tie. */
  lemma NearestBetween(f: Format, v: nat, a: nat, h: nat)
    requires a < Top(f) && Value(f, a) <= v <= Value(f, a + 1)
    requires var low, high := v - Value(f, a), Value(f, a + 1) - v;
             h == if low > high || (low == high && a % 2 == 1) then a + 1 else a
    ensures Nearest(f, v, h)
  {
    hide Value;
    ValueOrdered(f, a, a + 1);
    forall g: nat | g <= Top(f)
      ensures Preferred(f, v, h, g)
    {
      if g < a {
        ValueOrdered(f, g, a);
      } else if g > a + 1 {
        ValueOrdered(f, a + 1, g);
      }
    }
  }

  /** Rounding is a function: no magnitude has two nearest codes. */
  lemma NearestUnique(f: Format, v: nat, g: nat, h: nat)
    requires Nearest(f, v, g) && Nearest(f, v, h)
    ensures g == h
  {
    hide Value;
    assert Preferred(f, v, g, h) && Preferred(f, v, h, g);
    var low, high := if g < h then g else h, if g < h then h else g;
    if low < high {
      assert low % 2 == 0 && high % 2 == 0;
      assert Preferred(f, v, g, low + 1) && Preferred(f, v, h, low + 1);
      ValueOrdered(f, low, low + 1);
      ValueOrdered(f, low + 1, high);
    }
  }

  /** Beyond the largest magnitude, infinity is nearest. */
  lemma NearestTop(f: Format, v: nat)
    requires v >= Value(f, Top(f)) && Top(f) % 2 == 0
    ensures Nearest(f, v, Top(f))
  {
    hide Value;
    forall g: nat | g <= Top(f)
      ensures Preferred(f, v, Top(f), g)
    {
      ValueAtMost(f, g, Top(f));
    }
  }

  /** A scaled integer between two codes that are its multiples of `d`, rounded by its remainder. */
  lemma NearestByRemainder(f: Format, v: nat, a: nat, h: nat, z: nat, d: nat, half: nat, t: nat)
    requires d == 2 * half && half > 0 && t > 0 && a < Top(f) && v == z * t
    requires Value(f, a) == (z / d * d) * t && Value(f, a + 1) == ((z / d + 1) * d) * t
    requires var rem := z % d; h == a + if rem > half || (rem == half && a % 2 == 1) then 1 else 0
    ensures Nearest(f, v, h)
  {
    hide Value, Nearest;
    var k, rem := z / d, z % d;
    Divided(z, d, k, rem);
    RemainderGaps(z, d, k, rem, t);
    NearestByGaps(f, v, a, h, rem, d - rem, half, t);
  }

  /** A magnitude `low` units above one code and `high` units below the next, with a step of `2 * half` units. */
  lemma NearestByGaps(f: Format, v: nat, a: nat, h: nat, low: nat, high: nat, half: nat, t: nat)
    requires low + high == 2 * half && t > 0 && a < Top(f)
    requires v == Value(f, a) + low * t && Value(f, a + 1) == v + high * t
    requires h == a + if low > half || (low == half && a % 2 == 1) then 1 else 0
    ensures Nearest(f, v, h)
  {
    hide Value, Nearest;
    if low > high {
      ScaleLess(high, low, t);
    } else if low < high {
      ScaleLess(low, high, t);
    }
    NearestBetween(f, v, a, h);
  }

  lemma RemainderGaps(z: nat, d: nat, k: nat, rem: nat, t: nat)
    requires z == k * d + rem && rem < d
    ensures z * t == (k * d) * t + rem * t
    ensures ((k + 1) * d) * t == z * t + (d - rem) * t
  {
    assert (k + 1) * d == z + (d - rem);
    assert (z + (d - rem)) * t == z * t + (d - rem) * t;
    assert (k * d + rem) * t == (k * d) * t + rem * t;
  }

  // The two conversions

  lemma SmallPowers()
    ensures Pow2(10) == 1024 && Pow2(13) == 8192 && Pow2(16) == 0x1_0000 && Pow2(23) == 0x80_0000
    ensures Pow2(24) == 0x100_0000
  {
    assert Pow2(5) == 32 && Pow2(3) == 8;
    Pow2Sum(5, 5);
    Pow2Sum(10, 3);
    Pow2Sum(13, 3);
    Pow2Sum(13, 10);
    Pow2Sum(23, 1);
  }

  lemma SteppedMagnitude(a: nat)
    ensures Magnitude16(a) == Steps(a, 1024) * Pow2(125)
  {
    hide Pow2;
  }

  lemma ValueNext16(a: nat, p: nat)
    requires p == if a / 1024 == 0 then 1 else Pow2(a / 1024 - 1)
    ensures Magnitude16(a + 1) == Magnitude16(a) + p * Pow2(125)
  {
    hide Pow2, Steps, Magnitude16;
    StepsNext(a, 1024);
    SteppedMagnitude(a);
    SteppedMagnitude(a + 1);
    Distribute(Steps(a, 1024), p, Pow2(125));
  }

  lemma Distribute(x: nat, y: nat, m: nat)
    ensures (x + y) * m == x * m + y * m
  {
  }

  lemma Regroup(x: nat, y: nat, z: nat)
    ensures (x * y) * z == x * (y * z)
  {
  }

  /** The codes around a magnitude whose exponent binary16 can represent. */
  lemma NormalCodes(q: nat, m: nat, t: nat)
    requires 1 <= q <= 30 && m < 0x80_0000 && t == Pow2(q + 111)
    ensures var z, a := 0x80_0000 + m, q * 1024 + m / 8192;
            z / 8192 == 1024 + m / 8192 && z % 8192 == m % 8192 && a < 0x7c00 && a % 2 == (m / 8192) % 2 &&
            Value(Binary16, a) == (z / 8192 * 8192) * t && Value(Binary16, a + 1) == ((z / 8192 + 1) * 8192) * t
  {
    var k, a := 1024 + m / 8192, q * 1024 + m / 8192;
    NormalFields(q, m, a);
    var p := Pow2(q - 1);
    UnitOfNormal(q, p, t);
    ValueNext16(a, p);
    CodeValue(a, q, m / 8192, p);
    hide Pow2, Magnitude16;
    ScaledCode(k, p, Pow2(125), t, Magnitude16(a), Magnitude16(a + 1));
  }

  lemma NormalFields(q: nat, m: nat, a: nat)
    requires 1 <= q <= 30 && m < 0x80_0000 && a == q * 1024 + m / 8192
    ensures a / 1024 == q && a % 1024 == m / 8192 && a < 0x7c00 && a % 2 == (m / 8192) % 2
    ensures (0x80_0000 + m) / 8192 == 1024 + m / 8192 && (0x80_0000 + m) % 8192 == m % 8192
  {
  }

  lemma CodeValue(a: nat, e: nat, m: nat, p: nat)
    requires e == a / 1024 && m == a % 1024 && e > 0 && p == Pow2(e - 1)
    ensures Magnitude16(a) == ((1024 + m) * p) * Pow2(125)
  {
  }

  lemma ScaledCode(k: nat, p: nat, c: nat, t: nat, v: nat, w: nat)
    requires p * c == 8192 * t && v == (k * p) * c && w == v + p * c
    ensures v == (k * 8192) * t && w == ((k + 1) * 8192) * t
  {
    Regroup(k, p, c);
    Regroup(k, 8192, t);
    Regroup(k + 1, 8192, t);
    Distribute(k, 1, 8192 * t);
  }

  lemma UnitOfNormal(q: nat, p: nat, t: nat)
    requires q >= 1 && p == Pow2(q - 1) && t == Pow2(q + 111)
    ensures p * Pow2(125) == 8192 * t
  {
    hide Pow2;
    SmallPowers();
    Pow2Sum(q - 1, 125);
    Pow2Sum(13, q + 111);
  }

  /** The codes around a magnitude that lands among binary16's subnormals. */
  lemma SubnormalCodes(q: int, z: nat, sh: nat, d: nat, t: nat, a: nat)
    requires -10 <= q <= 0 && z < 0x100_0000 && sh == 14 - q && d == Pow2(sh) && t == Pow2(q + 111) && a == z / d
    ensures d == 2 * Pow2(sh - 1) && a < 1024
    ensures Value(Binary16, a) == (a * d) * t && Value(Binary16, a + 1) == ((a + 1) * d) * t
  {
    SmallPowers();
    Pow2Grows(14, sh);
    Pow2Sum(14, 10);
    Pow2Sum(sh, q + 111);
    hide Pow2;
    Divided(z, d, a, z % d);
    QuotientBelow(z, d, a, Pow2(14));
    ValueNext16(a, 1);
    Regroup(a, d, t);
    Regroup(a + 1, d, t);
    Distribute(a, 1, Pow2(125));
  }

  lemma QuotientBelow(z: nat, d: nat, a: nat, e: nat)
    requires z < 0x100_0000 && e * 1024 == 0x100_0000 && e <= d && a * d <= z
    ensures a < 1024
  {
    ScaleAtMost(e, d, 1024);
    if a >= 1024 {
      ScaleAtMost(1024, a, d);
      assert false;
    }
  }

  /** Magnitudes below half the smallest code round to zero. */
  lemma TinyIsZero(v: nat, u: nat)
    requires v == Magnitude32(u) && High(u, 0x80_0000) < 102
    ensures Nearest(Binary16, v, 0)
  {
    TinyBound(u);
    ValueNext16(0, 1);
    Pow2Sum(1, 124);
    assert Pow2(1) == 2;
    hide Pow2, Magnitude32;
    NearestBetween(Binary16, v, 0, 0);
  }

  lemma TinyBound(u: nat)
    requires u / 0x80_0000 < 102
    ensures Magnitude32(u) < Pow2(124)
  {
    hide Pow2, Magnitude32;
    var e, m := u / 0x80_0000, u % 0x80_0000;
    SmallPowers();
    Pow2Sum(24, 100);
    Pow2Grows(if e == 0 then 0 else e - 1, 100);
    NoPower();
    MagnitudeFields(u);
    TinyScale(m, if e == 0 then 1 else Pow2(e - 1), Pow2(100));
  }

  lemma NoPower()
    ensures Pow2(0) == 1
  {
  }

  lemma MagnitudeFields(u: nat)
    ensures var e, m := u / 0x80_0000, u % 0x80_0000;
            Magnitude32(u) == if e == 0 then m else (0x80_0000 + m) * Pow2(e - 1)
  {
    hide Pow2;
  }

  lemma TinyScale(m: nat, p: nat, c: nat)
    requires m < 0x80_0000 && p <= c && c > 0
    ensures (0x80_0000 + m) * p < 0x100_0000 * c && m < 0x100_0000 * c
  {
    ScaleAtMost(p, c, 0x80_0000 + m);
    ScaleLess(0x80_0000 + m, 0x100_0000, c);
  }

  /** Magnitudes from 2^16 on round to infinity. */
  lemma HugeIsInfinite(v: nat, u: nat)
    requires v == Magnitude32(u) && High(u, 0x80_0000) >= 143
    ensures Nearest(Binary16, v, 0x7c00)
  {
    var e, m := u / 0x80_0000, u % 0x80_0000;
    TopValue();
    Pow2Grows(142, e - 1);
    var p, c := Pow2(e - 1), Pow2(142);
    HugeScale(m, p, c);
    assert v == (0x80_0000 + m) * p;
    hide Pow2, Magnitude32, Value;
    NearestTop(Binary16, v);
  }

  lemma HugeScale(m: nat, p: nat, c: nat)
    requires c <= p
    ensures 0x80_0000 * c <= (0x80_0000 + m) * p
  {
    ScaleAtMost(c, p, 0x80_0000);
    ScaleAtMost(0x80_0000, 0x80_0000 + m, p);
  }

  lemma TopValue()
    ensures Value(Binary16, 0x7c00) == 0x80_0000 * Pow2(142)
  {
    hide Pow2, Magnitude16;
    SmallPowers();
    Pow2Sum(23, 142);
    Pow2Sum(10, 30);
    Pow2Sum(40, 125);
    CodeValue(0x7c00, 31, 0, Pow2(30));
  }

  // Fields of words and codes

  function High(x: nat, d: nat): nat
    requires d > 0
  {
    x / d
  }

  function Low(x: nat, d: nat): nat
    requires d > 0
  {
    x % d
  }

  function Sign32(b: nat): nat {
    b / 0x8000_0000
  }

  function Body32(b: nat): nat {
    b % 0x8000_0000
  }

  function Sign16(h: nat): nat {
    h / 0x8000
  }

  function Body16(h: nat): nat {
    h % 0x8000
  }

  /** Signs and codes of words, the codes of the infinities, and a bfloat16 as the upper half of a binary32. */
  lemma FieldsAre(b: nat, h: nat)
    ensures Sign32(b) == b / 0x8000_0000 && Body32(b) == b % 0x8000_0000
    ensures Sign16(h) == h / 0x8000 && Body16(h) == h % 0x8000
    ensures Top(Binary16) == 0x7c00 && Top(BFloat16) == 0x7f80 && Value(BFloat16, h) == Magnitude32(h * 0x1_0000)
  {
  }

  /** The three fields of a binary32 word. */
  lemma Fields(b: nat, e: nat, m: nat, u: nat)
    requires b < 0x1_0000_0000 && e == Low(High(b, 0x80_0000), 256) && m == Low(b, 0x80_0000) && u == Body32(b)
    ensures e == High(u, 0x80_0000) && m == Low(u, 0x80_0000) && u == e * 0x80_0000 + m && e < 256 && m < 0x80_0000
    ensures e < 255 <==> u < 0x7f80_0000
    ensures e == 255 && m == 0 <==> u == 0x7f80_0000
  {
  }

  /** A 15-bit code under the sign bit of a binary32 word. */
  lemma Signed(b: nat, s: nat, code: nat)
    requires b < 0x1_0000_0000 && s == Sign32(b) * 0x8000 && code < 0x8000
    ensures s + code < 0x1_0000 && Sign16(s + code) == Sign32(b) && Body16(s + code) == code
  {
  }

  /** A quieted NaN keeps the upper payload with its lowest bit set, so it is never empty. */
  lemma Quieted(u: nat, m: nat, payload: nat)
    requires m < 0x80_0000 && payload == if Low(High(m, 0x2000), 2) == 0 then High(m, 0x2000) + 1 else High(m, 0x2000)
    requires u == 0x7f80_0000 + m
    ensures 0 < payload < 1024 && payload == u / 0x4000 % 512 * 2 + 1
  {
  }

  lemma SubnormalRounds(u: nat, e: nat, m: nat, q: int, sh: nat, r: nat, rem: nat, half: nat, up: nat)
    requires e == High(u, 0x80_0000) && m == Low(u, 0x80_0000) && q == e - 112 && -10 <= q <= 0 && sh == 14 - q
    requires r == High(0x80_0000 + m, Pow2(sh)) && rem == Low(0x80_0000 + m, Pow2(sh)) && half == Pow2(sh - 1)
    requires up == if rem > half || (rem == half && r % 2 == 1) then 1 else 0
    ensures r + up < 0x8000 && Nearest(Binary16, Magnitude32(u), r + up)
  {
    var t := Pow2(q + 111);
    SubnormalCodes(q, 0x80_0000 + m, sh, Pow2(sh), t, r);
    MagnitudeOf(u, e, m);
    hide Pow2, Magnitude32, Value;
    NearestByRemainder(Binary16, Magnitude32(u), r, r + up, 0x80_0000 + m, Pow2(sh), half, t);
  }

  lemma NormalRounds(u: nat, e: nat, m: nat, q: nat, r: nat, rem: nat, up: nat)
    requires e == High(u, 0x80_0000) && m == Low(u, 0x80_0000) && e == q + 112 && 1 <= q <= 30
    requires r == High(m, 0x2000) && rem == Low(m, 0x2000) &&
             up == if rem > 0x1000 || (rem == 0x1000 && r % 2 == 1) then 1 else 0
    ensures q * 1024 + r + up <= 0x7c00 && Nearest(Binary16, Magnitude32(u), q * 1024 + r + up)
  {
    var t := Pow2(q + 111);
    NormalCodes(q, m, t);
    MagnitudeOf(u, e, m);
    hide Pow2, Magnitude32, Value;
    NearestByRemainder(Binary16, Magnitude32(u), q * 1024 + r, q * 1024 + r + up, 0x80_0000 + m, 8192, 4096, t);
  }

  /** The emitted binary32 to binary16 conversion. */
  method ToBinary16(b: nat) returns (h: nat)
    requires b < 0x1_0000_0000
    ensures h < 0x1_0000 && Sign16(h) == Sign32(b)
    ensures var u := Body32(b);
            if u < 0x7f80_0000 then Nearest(Binary16, Magnitude32(u), Body16(h))
            else if u == 0x7f80_0000 then Body16(h) == 0x7c00
            else Body16(h) == 0x7c00 + u / 0x4000 % 512 * 2 + 1
  {
    hide Nearest, Magnitude32, Pow2, High, Low, Sign32, Body32, Sign16, Body16;
    var s := Sign32(b) * 0x8000;
    var e, m := Low(High(b, 0x80_0000), 256), Low(b, 0x80_0000);
    ghost var u := Body32(b);
    Fields(b, e, m, u);
    if e == 255 {
      var payload := High(m, 0x2000);
      if Low(payload, 2) == 0 {
        payload := payload + 1;
      }
      Quieted(u, m, payload);
      if m == 0 {
        payload := 0;
      }
      Signed(b, s, 0x7c00 + payload);
      return s + 0x7c00 + payload;
    }
    var q := e as int - 112;
    if q <= 0 {
      if q < -10 {
        TinyIsZero(Magnitude32(u), u);
        Signed(b, s, 0);
        return s;
      }
      var z, sh := 0x80_0000 + m, 14 - q;
      var r, rem, half := High(z, Pow2(sh)), Low(z, Pow2(sh)), Pow2(sh - 1);
      var up := if rem > half || (rem == half && r % 2 == 1) then 1 else 0;
      SubnormalRounds(u, e, m, q, sh, r, rem, half, up);
      Signed(b, s, r + up);
      return s + r + up;
    }
    if q >= 31 {
      HugeIsInfinite(Magnitude32(u), u);
      Signed(b, s, 0x7c00);
      return s + 0x7c00;
    }
    var r, rem := High(m, 0x2000), Low(m, 0x2000);
    var up := if rem > 0x1000 || (rem == 0x1000 && r % 2 == 1) then 1 else 0;
    NormalRounds(u, e, m, q, r, rem, up);
    Signed(b, s, q * 1024 + r + up);
    r := r + up;
    if r == 0x400 {
      if q == 30 {
        return s + 0x7c00;
      }
      q := q + 1;
      r := 0;
    }
    return s + q * 1024 + r;
  }

  lemma MagnitudeOf(u: nat, e: nat, m: nat)
    requires e == u / 0x80_0000 && m == u % 0x80_0000 && e > 0
    ensures Magnitude32(u) == (0x80_0000 + m) * Pow2(e - 1)
  {
  }

  /** The codes around a binary32 magnitude in bfloat16: the word with its low half cleared, and the next one. */
  lemma BfloatCodes(u: nat, a: nat, z: nat, t: nat)
    requires u < 0x7f80_0000 && a == u / 0x1_0000
    requires var e, m := u / 0x80_0000, u % 0x80_0000;
             z == (if e == 0 then m else 0x80_0000 + m) && t == if e == 0 then 1 else Pow2(e - 1)
    ensures Magnitude32(u) == z * t && z % 0x1_0000 == u % 0x1_0000 && a < 0x7f80
    ensures Value(BFloat16, a) == (z / 0x1_0000 * 0x1_0000) * t
    ensures Value(BFloat16, a + 1) == ((z / 0x1_0000 + 1) * 0x1_0000) * t
  {
    hide Pow2;
    var e, m := u / 0x80_0000, u % 0x80_0000;
    var w := a * 0x1_0000;
    assert u == e * 0x80_0000 + m && w == u - u % 0x1_0000;
    assert w / 0x80_0000 == e && w % 0x80_0000 == m / 0x1_0000 * 0x1_0000;
    assert z / 0x1_0000 == (if e == 0 then 0 else 128) + m / 0x1_0000;
    BfloatStep(w, e, w % 0x80_0000, t);
  }

  /** Clearing the low half leaves room for one whole bfloat16 step inside the exponent. */
  lemma BfloatStep(w: nat, e: nat, m: nat, t: nat)
    requires w == e * 0x80_0000 + m && m % 0x1_0000 == 0 && m < 0x80_0000 && t == if e == 0 then 1 else Pow2(e - 1)
    ensures Magnitude32(w) == ((if e == 0 then 0 else 0x80_0000) + m) * t
    ensures Magnitude32(w + 0x1_0000) == ((if e == 0 then 0 else 0x80_0000) + m + 0x1_0000) * t
  {
    assert w / 0x80_0000 == e && w % 0x80_0000 == m;
    if m + 0x1_0000 == 0x80_0000 {
      var v := w + 0x1_0000;
      assert v == (e + 1) * 0x80_0000;
      assert v / 0x80_0000 == e + 1 && v % 0x80_0000 == 0;
      if e > 0 {
        assert Pow2(e) == 2 * t;
        hide Pow2;
        assert 0x80_0000 * (2 * t) == (0x80_0000 + 0x80_0000) * t;
      }
    } else {
      assert (w + 0x1_0000) / 0x80_0000 == e && (w + 0x1_0000) % 0x80_0000 == m + 0x1_0000;
    }
  }

  /** The word the emitted conversion takes the high half of. */
  function Nudged(b: nat): nat {
    (b + 0x7fff + High(b, 0x1_0000) % 2) % 0x1_0000_0000
  }

  /** The emitted binary32 to bfloat16 conversion; its 32-bit addition never wraps. */
  method ToBfloat16(b: nat) returns (h: nat)
    requires b < 0x1_0000_0000
    ensures h < 0x1_0000 && Sign16(h) == Sign32(b)
    ensures var u := Body32(b);
            if u < 0x7f80_0000 then Nearest(BFloat16, Magnitude32(u), Body16(h))
            else if u == 0x7f80_0000 then Body16(h) == 0x7f80
            else Body16(h) == if u / 0x1_0000 > 0x7f80 then u / 0x1_0000 else 0x7f81
  {
    hide Nearest, Magnitude32, Pow2, High, Low, Sign32, Body32, Sign16, Body16, Nudged;
    var hi := High(b, 0x1_0000);
    var e, m := Low(High(b, 0x80_0000), 256), Low(b, 0x80_0000);
    ghost var u := Body32(b);
    Fields(b, e, m, u);
    HighHalf(b, hi, e, m, u);
    if e == 255 && m != 0 {
      QuietHalf(b, hi, e, m, u);
      return if Low(hi, 0x80) != 0 then hi else hi + 1;
    }
    h := High(Nudged(b), 0x1_0000);
    if e < 255 {
      ghost var rem, a := Low(u, 0x1_0000), High(u, 0x1_0000);
      ghost var up := if rem > 0x8000 || (rem == 0x8000 && a % 2 == 1) then 1 else 0;
      BfloatRounds(u, e, m, a, rem, up);
      RoundedWord(b, a, rem, up);
      Signed(b, Sign32(b) * 0x8000, a + up);
    } else {
      InfiniteWord(b);
      Signed(b, Sign32(b) * 0x8000, 0x7f80);
    }
  }

  lemma BfloatRounds(u: nat, e: nat, m: nat, a: nat, rem: nat, up: nat)
    requires e == High(u, 0x80_0000) && m == Low(u, 0x80_0000) && u < 0x7f80_0000 && a == High(u, 0x1_0000)
    requires rem == Low(u, 0x1_0000)
    requires up == if rem > 0x8000 || (rem == 0x8000 && a % 2 == 1) then 1 else 0
    ensures a + up <= 0x7f80 && Nearest(BFloat16, Magnitude32(u), a + up)
  {
    var z, t := if e == 0 then m else 0x80_0000 + m, if e == 0 then 1 else Pow2(e - 1);
    BfloatCodes(u, a, z, t);
    hide Pow2, Magnitude32, Value;
    NearestByRemainder(BFloat16, Magnitude32(u), a, a + up, z, 0x1_0000, 0x8000, t);
  }

  lemma HighHalf(b: nat, hi: nat, e: nat, m: nat, u: nat)
    requires b < 0x1_0000_0000 && hi == High(b, 0x1_0000) && u == Body32(b) && u == e * 0x80_0000 + m && m < 0x80_0000
    ensures hi == Sign32(b) * 0x8000 + High(u, 0x1_0000) && High(u, 0x1_0000) == e * 128 + High(m, 0x1_0000)
    ensures Low(hi, 0x80) == High(m, 0x1_0000)
  {
    assert b == b / 0x8000_0000 * 0x8000_0000 + u;
  }

  lemma QuietHalf(b: nat, hi: nat, e: nat, m: nat, u: nat)
    requires b < 0x1_0000_0000 && e == 255 && 0 < m < 0x80_0000 && u == 0x7f80_0000 + m
    requires hi == Sign32(b) * 0x8000 + e * 128 + High(m, 0x1_0000) && Low(hi, 0x80) == High(m, 0x1_0000)
    ensures var h := if Low(hi, 0x80) != 0 then hi else hi + 1;
            h < 0x1_0000 && Sign16(h) == Sign32(b) &&
            Body16(h) == if u / 0x1_0000 > 0x7f80 then u / 0x1_0000 else 0x7f81
  {
  }

  /** Adding just under half, and one more for an odd code, carries into the code exactly when it must. */
  lemma RoundedWord(b: nat, a: nat, rem: nat, up: nat)
    requires b < 0x1_0000_0000 && Body32(b) < 0x7f80_0000
    requires a == High(Body32(b), 0x1_0000) && rem == Low(Body32(b), 0x1_0000)
    requires up == if rem > 0x8000 || (rem == 0x8000 && a % 2 == 1) then 1 else 0
    ensures b + 0x7fff + High(b, 0x1_0000) % 2 < 0x1_0000_0000
    ensures High(Nudged(b), 0x1_0000) == Sign32(b) * 0x8000 + (a + up)
  {
    assert b == b / 0x8000_0000 * 0x8000_0000 + a * 0x1_0000 + rem;
    assert b / 0x1_0000 == b / 0x8000_0000 * 0x8000 + a;
  }

  lemma InfiniteWord(b: nat)
    requires b < 0x1_0000_0000 && Body32(b) == 0x7f80_0000
    ensures High(Nudged(b), 0x1_0000) == Sign32(b) * 0x8000 + 0x7f80
  {
    assert b == b / 0x8000_0000 * 0x8000_0000 + 0x7f80_0000;
    assert b / 0x1_0000 == b / 0x8000_0000 * 0x8000 + 0x7f80;
  }
}
