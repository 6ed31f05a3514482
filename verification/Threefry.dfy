/** The emitted Threefry-2x32-20 generator: its loop, the loop that undoes it, and the words it hands out. */
module Threefry {

  /** An unsigned 32-bit word, with wrapping addition and subtraction. */
  type Word = bv32

  // Machine arithmetic under names of its own, so that a round stays opaque to the solver

  function Add(x: Word, y: Word): Word {
    x + y
  }

  function Sub(x: Word, y: Word): Word {
    x - y
  }

  function Xor(x: Word, y: Word): Word {
    x ^ y
  }

  predicate Less(x: Word, y: Word) {
    x < y
  }

  lemma AddIs(x: Word, y: Word)
    ensures Add(x, y) == x + y
  {
  }

  lemma SubIs(x: Word, y: Word)
    ensures Sub(x, y) == x - y
  {
  }

  lemma LessIs(x: Word, y: Word)
    ensures Less(x, y) <==> x < y
  {
  }

  lemma AddBack(x: Word, y: Word)
    ensures Sub(Add(x, y), y) == x
  {
    hide Sub;
    SumBack(x, y);
  }

  lemma SumBack(x: Word, y: Word)
    ensures Sub(x + y, y) == x
  {
  }

  lemma SubBack(x: Word, y: Word)
    ensures Add(Sub(x, y), y) == x
  {
    hide Add;
    DifferenceBack(x, y);
  }

  lemma DifferenceBack(x: Word, y: Word)
    ensures Add(x - y, y) == x
  {
  }

  lemma XorBack(x: Word, y: Word)
    ensures Xor(Xor(x, y), y) == x
  {
  }

  // Rotation

  function Rot(x: Word, n: Word): Word
    requires 0 < n < 32
  {
    (x << n) | (x >> (32 - n))
  }

  /** Each rotation a round uses, as the language's own. */
  lemma Turned(x: Word)
    ensures Rot(x, 13) == x.RotateLeft(13)
    ensures Rot(x, 15) == x.RotateLeft(15)
    ensures Rot(x, 26) == x.RotateLeft(26)
    ensures Rot(x, 6) == x.RotateLeft(6)
    ensures Rot(x, 17) == x.RotateLeft(17)
    ensures Rot(x, 29) == x.RotateLeft(29)
    ensures Rot(x, 16) == x.RotateLeft(16)
    ensures Rot(x, 24) == x.RotateLeft(24)
  {
  }

  // The rounds

  /** The rotation amount of round `q`. */
  function Amount(q: nat): (n: Word)
    ensures 0 < n < 32
  {
    match q % 8
    case 0 => 13 case 1 => 15 case 2 => 26 case 3 => 6 case 4 => 17 case 5 => 29 case 6 => 16 case _ => 24
  }

  /** Rotating by the complementary amount undoes each rotation. */
  lemma Turned13(x: Word)
    ensures Rot(Rot(x, 13), 19) == x && Rot(Rot(x, 19), 13) == x
  {
  }

  lemma Turned15(x: Word)
    ensures Rot(Rot(x, 15), 17) == x && Rot(Rot(x, 17), 15) == x
  {
  }

  lemma Turned26(x: Word)
    ensures Rot(Rot(x, 26), 6) == x && Rot(Rot(x, 6), 26) == x
  {
  }

  lemma Turned6(x: Word)
    ensures Rot(Rot(x, 6), 26) == x && Rot(Rot(x, 26), 6) == x
  {
  }

  lemma Turned17(x: Word)
    ensures Rot(Rot(x, 17), 15) == x && Rot(Rot(x, 15), 17) == x
  {
  }

  lemma Turned29(x: Word)
    ensures Rot(Rot(x, 29), 3) == x && Rot(Rot(x, 3), 29) == x
  {
  }

  lemma Turned16(x: Word)
    ensures Rot(Rot(x, 16), 16) == x && Rot(Rot(x, 16), 16) == x
  {
  }

  lemma Turned24(x: Word)
    ensures Rot(Rot(x, 24), 8) == x && Rot(Rot(x, 8), 24) == x
  {
  }

  lemma RotBack(x: Word, q: nat)
    ensures Rot(Rot(x, Amount(q)), 32 - Amount(q)) == x && Rot(Rot(x, 32 - Amount(q)), Amount(q)) == x
  {
    hide Rot;
    match q % 8
    case 0 => Turned13(x);
    case 1 => Turned15(x);
    case 2 => Turned26(x);
    case 3 => Turned6(x);
    case 4 => Turned17(x);
    case 5 => Turned29(x);
    case 6 => Turned16(x);
    case _ => Turned24(x);
  }

  /** The two key words and the parity word that is injected with them. */
  function Schedule(k0: Word, k1: Word): (k: seq<Word>)
    ensures |k| == 3
  {
    [k0, k1, Xor(Xor(k0, k1), 0x1bd1_1bda)]
  }

  datatype Pair = Pair(a: Word, b: Word)

  /** The injection number after round `q`, as a word. */
  function Stage(q: nat): Word
    requires q < 20
  {
    match q / 4 case 0 => 1 case 1 => 2 case 2 => 3 case 3 => 4 case _ => 5
  }

  /** Round `q`: add, rotate, mix, and after every fourth round inject two key words and the injection's number. */
  function Round(k: seq<Word>, q: nat, s: Pair): Pair
    requires |k| == 3 && q < 20
  {
    var a := Add(s.a, s.b);
    var b := Xor(Rot(s.b, Amount(q)), a);
    var z := q / 4 + 1;
    if q % 4 == 3 then Pair(Add(a, k[z % 3]), Add(b, Add(k[(z + 1) % 3], Stage(q)))) else Pair(a, b)
  }

  /** The inverse of round `q`. */
  function Unround(k: seq<Word>, q: nat, s: Pair): Pair
    requires |k| == 3 && q < 20
  {
    var z := q / 4 + 1;
    var a := if q % 4 == 3 then Sub(s.a, k[z % 3]) else s.a;
    var b := if q % 4 == 3 then Sub(s.b, Add(k[(z + 1) % 3], Stage(q))) else s.b;
    var before := Rot(Xor(b, a), 32 - Amount(q));
    Pair(Sub(a, before), before)
  }

  function Rounds(k: seq<Word>, n: nat, s: Pair): Pair
    requires |k| == 3 && n <= 20
  {
    if n == 0 then s else Round(k, n - 1, Rounds(k, n - 1, s))
  }

  function Unrounds(k: seq<Word>, n: nat, s: Pair): Pair
    requires |k| == 3 && n <= 20
  {
    if n == 0 then s else Unrounds(k, n - 1, Unround(k, n - 1, s))
  }

  function Cipher(k0: Word, k1: Word, c: Pair): Pair {
    Rounds(Schedule(k0, k1), 20, Pair(Add(c.a, k0), Add(c.b, k1)))
  }

  function Decipher(k0: Word, k1: Word, o: Pair): Pair {
    var s := Unrounds(Schedule(k0, k1), 20, o);
    Pair(Sub(s.a, k0), Sub(s.b, k1))
  }

  // The loops

  lemma NoRound(k: seq<Word>, s: Pair)
    requires |k| == 3
    ensures Rounds(k, 0, s) == s
  {
  }

  lemma NextRound(k: seq<Word>, q: nat, s: Pair)
    requires |k| == 3 && q < 20
    ensures Rounds(k, q + 1, s) == Round(k, q, Rounds(k, q, s))
  {
    hide Round;
  }

  /** The emitted loop. */
  method Generate(k0: Word, k1: Word, c0: Word, c1: Word) returns (o0: Word, o1: Word)
    ensures Pair(o0, o1) == Cipher(k0, k1, Pair(c0, c1))
  {
    hide Rot, Add, Sub, Xor, Amount, Stage, Rounds;
    var k := [k0, k1, Xor(Xor(k0, k1), 0x1bd1_1bda)];
    var a, b := Add(c0, k0), Add(c1, k1);
    ghost var s := Pair(a, b);
    var q := 0;
    NoRound(k, s);
    while q < 20
      invariant q <= 20 && Pair(a, b) == Rounds(k, q, s)
    {
      NextRound(k, q, s);
      a := Add(a, b);
      b := Xor(Rot(b, Amount(q)), a);
      if q % 4 == 3 {
        var z := q / 4 + 1;
        a := Add(a, k[z % 3]);
        b := Add(b, Add(k[(z + 1) % 3], Stage(q)));
      }
      q := q + 1;
    }
    return a, b;
  }

  /** The loop run backwards recovers the counters from any output. */
  method Recover(k0: Word, k1: Word, o0: Word, o1: Word) returns (c0: Word, c1: Word)
    ensures Pair(c0, c1) == Decipher(k0, k1, Pair(o0, o1))
    ensures Cipher(k0, k1, Pair(c0, c1)) == Pair(o0, o1)
  {
    hide Round, Unround, Add, Sub, Xor;
    var k := [k0, k1, Xor(Xor(k0, k1), 0x1bd1_1bda)];
    ghost var o := Pair(o0, o1);
    var s := Pair(o0, o1);
    for q := 20 downto 0
      invariant Unrounds(k, q, s) == Unrounds(k, 20, o)
    {
      s := Unround(k, q, s);
    }
    CipherOfDecipher(k0, k1, o);
    return Sub(s.a, k0), Sub(s.b, k1);
  }

  // Inverses

  /** A round and its inverse cancel, both ways. */
  lemma RoundBack(k: seq<Word>, q: nat, s: Pair)
    requires |k| == 3 && q < 20
    ensures Unround(k, q, Round(k, q, s)) == s
    ensures Round(k, q, Unround(k, q, s)) == s
  {
    hide Rot, Amount, Add, Sub, Xor, Stage;
    var n, z := Amount(q), q / 4 + 1;
    var ka, kb := k[z % 3], Add(k[(z + 1) % 3], Stage(q));
    var a := Add(s.a, s.b);
    var b := Xor(Rot(s.b, n), a);
    AddBack(a, ka);
    AddBack(b, kb);
    XorBack(Rot(s.b, n), a);
    RotBack(s.b, q);
    AddBack(s.a, s.b);
    SubBack(s.a, ka);
    SubBack(s.b, kb);
    var ua := if q % 4 == 3 then Sub(s.a, ka) else s.a;
    var ub := if q % 4 == 3 then Sub(s.b, kb) else s.b;
    var before := Rot(Xor(ub, ua), 32 - n);
    SubBack(ua, before);
    RotBack(Xor(ub, ua), q);
    XorBack(ub, ua);
  }

  lemma {:induction false} RoundsBack(k: seq<Word>, n: nat, s: Pair)
    requires |k| == 3 && n <= 20
    ensures Unrounds(k, n, Rounds(k, n, s)) == s
    ensures Rounds(k, n, Unrounds(k, n, s)) == s
  {
    hide Round, Unround;
    if n > 0 {
      RoundsBack(k, n - 1, s);
      RoundBack(k, n - 1, Rounds(k, n - 1, s));
      RoundsBack(k, n - 1, Unround(k, n - 1, s));
      RoundBack(k, n - 1, s);
    }
  }

  lemma DecipherOfCipher(k0: Word, k1: Word, c: Pair)
    ensures Decipher(k0, k1, Cipher(k0, k1, c)) == c
  {
    hide Rounds, Unrounds, Schedule, Add, Sub;
    RoundsBack(Schedule(k0, k1), 20, Pair(Add(c.a, k0), Add(c.b, k1)));
    AddBack(c.a, k0);
    AddBack(c.b, k1);
  }

  lemma CipherOfDecipher(k0: Word, k1: Word, o: Pair)
    ensures Cipher(k0, k1, Decipher(k0, k1, o)) == o
  {
    hide Rounds, Unrounds, Schedule, Add, Sub;
    var s := Unrounds(Schedule(k0, k1), 20, o);
    RoundsBack(Schedule(k0, k1), 20, o);
    SubBack(s.a, k0);
    SubBack(s.b, k1);
  }

  /** For every key the generator is a bijection on counter pairs. */
  lemma CipherIsBijection(k0: Word, k1: Word, c: Pair, d: Pair, o: Pair)
    ensures Cipher(k0, k1, c) == Cipher(k0, k1, d) ==> c == d
    ensures exists x :: Cipher(k0, k1, x) == o
  {
    hide Cipher, Decipher;
    DecipherOfCipher(k0, k1, c);
    DecipherOfCipher(k0, k1, d);
    CipherOfDecipher(k0, k1, o);
  }

  // Known answers, which fix every constant of the rounds

  lemma AfterFour(k: seq<Word>, s: Pair)
    requires k == [0, 0, 0x1bd1_1bda] && Rounds(k, 0, s) == Pair(0, 0)
    ensures Rounds(k, 4, s) == Pair(0, 0x1bd1_1bdb)
  {
    hide Rot;
    Turned(0);
    assert Rounds(k, 1, s) == Pair(0, 0);
    assert Rounds(k, 2, s) == Pair(0, 0);
    assert Rounds(k, 3, s) == Pair(0, 0);
    assert Rounds(k, 4, s) == Pair(0, 0x1bd1_1bdb);
  }

  lemma AfterEight(k: seq<Word>, s: Pair)
    requires k == [0, 0, 0x1bd1_1bda] && Rounds(k, 4, s) == Pair(0, 0x1bd1_1bdb)
    ensures Rounds(k, 8, s) == Pair(0xe9f5_ada4, 0x553c_a653)
  {
    hide Rot;
    Turned(0x1bd1_1bdb);
    assert Rounds(k, 5, s) == Pair(0x1bd1_1bdb, 0x2c67_2c79);
    Turned(0x2c67_2c79);
    assert Rounds(k, 6, s) == Pair(0x4838_4854, 0x6db4_addb);
    Turned(0x6db4_addb);
    assert Rounds(k, 7, s) == Pair(0xb5ec_f62f, 0x1837_9b9b);
    Turned(0x1837_9b9b);
    assert Rounds(k, 8, s) == Pair(0xe9f5_ada4, 0x553c_a653);
  }

  lemma AfterTwelve(k: seq<Word>, s: Pair)
    requires k == [0, 0, 0x1bd1_1bda] && Rounds(k, 8, s) == Pair(0xe9f5_ada4, 0x553c_a653)
    ensures Rounds(k, 12, s) == Pair(0xf020_d362, 0xacfb_8b64)
  {
    hide Rot;
    Turned(0x553c_a653);
    assert Rounds(k, 9, s) == Pair(0x3f32_53f7, 0xabf8_3950);
    Turned(0xabf8_3950);
    assert Rounds(k, 10, s) == Pair(0xeb2a_8d47, 0xf782_d8bb);
    Turned(0xf782_d8bb);
    assert Rounds(k, 11, s) == Pair(0xe2ad_6602, 0x0d73_6d60);
    Turned(0x0d73_6d60);
    assert Rounds(k, 12, s) == Pair(0xf020_d362, 0xacfb_8b64);
  }

  lemma AfterSixteen(k: seq<Word>, s: Pair)
    requires k == [0, 0, 0x1bd1_1bda] && Rounds(k, 12, s) == Pair(0xf020_d362, 0xacfb_8b64)
    ensures Rounds(k, 16, s) == Pair(0xc9e9_5d8b, 0x663f_4d97)
  {
    hide Rot;
    Turned(0xacfb_8b64);
    assert Rounds(k, 13, s) == Pair(0x9d1c_5ec6, 0x8bd5_0731);
    Turned(0x8bd5_0731);
    assert Rounds(k, 14, s) == Pair(0x28f1_65f7, 0x198b_c511);
    Turned(0x198b_c511);
    assert Rounds(k, 15, s) == Pair(0x427d_2b08, 0x876c_3283);
    Turned(0x876c_3283);
    assert Rounds(k, 16, s) == Pair(0xc9e9_5d8b, 0x663f_4d97);
  }

  lemma AfterEighteen(k: seq<Word>, s: Pair)
    requires k == [0, 0, 0x1bd1_1bda] && Rounds(k, 16, s) == Pair(0xc9e9_5d8b, 0x663f_4d97)
    ensures Rounds(k, 18, s) == Pair(0x09c2_f307, 0x2a30_1fca)
  {
    hide Rot;
    Turned(0x663f_4d97);
    assert Rounds(k, 17, s) == Pair(0x3028_ab22, 0xd99a_47e5);
    Turned(0xd99a_47e5);
    assert Rounds(k, 18, s) == Pair(0x09c2_f307, 0x2a30_1fca);
  }

  lemma AfterTwenty(k: seq<Word>, s: Pair)
    requires k == [0, 0, 0x1bd1_1bda] && Rounds(k, 18, s) == Pair(0x09c2_f307, 0x2a30_1fca)
    ensures Rounds(k, 20, s) == Pair(0x6b20_0159, 0x99ba_4efe)
  {
    hide Rot;
    Turned(0x2a30_1fca);
    assert Rounds(k, 19, s) == Pair(0x33f3_12d1, 0x1b5b_d2ae);
    Turned(0x1b5b_d2ae);
    assert Rounds(k, 20, s) == Pair(0x6b20_0159, 0x99ba_4efe);
  }

  /** The published answer for the zero key and counters. */
  lemma ZeroVector()
    ensures Cipher(0, 0, Pair(0, 0)) == Pair(0x6b20_0159, 0x99ba_4efe)
  {
    hide Round;
    var k, s := Schedule(0, 0), Pair(Add(0, 0), Add(0, 0));
    AfterFour(k, s);
    AfterEight(k, s);
    AfterTwelve(k, s);
    AfterSixteen(k, s);
    AfterEighteen(k, s);
    AfterTwenty(k, s);
  }

  lemma PiFour(k: seq<Word>, s: Pair)
    requires k == [0x1319_8a2e, 0x0370_7344, 0x0bb8_e2b0]
    requires Rounds(k, 0, s) == Pair(0x3758_f4b6, 0x8913_7c17)
    ensures Rounds(k, 4, s) == Pair(0x3243_37dd, 0x6832_c2eb)
  {
    hide Rot;
    Turned(0x8913_7c17);
    assert Rounds(k, 1, s) == Pair(0xc06c_70cd, 0xafee_81ef);
    Turned(0xafee_81ef);
    assert Rounds(k, 2, s) == Pair(0x705a_f2bc, 0x30ad_254b);
    Turned(0x30ad_254b);
    assert Rounds(k, 3, s) == Pair(0xa108_1807, 0x8dca_ac92);
    Turned(0x8dca_ac92);
  }

  lemma PiEight(k: seq<Word>, s: Pair)
    requires k == [0x1319_8a2e, 0x0370_7344, 0x0bb8_e2b0]
    requires Rounds(k, 4, s) == Pair(0x3243_37dd, 0x6832_c2eb)
    ensures Rounds(k, 8, s) == Pair(0x73e5_c4bd, 0x23d2_4ea1)
  {
    hide Rot;
    Turned(0x6832_c2eb);
    assert Rounds(k, 5, s) == Pair(0x9a75_fac8, 0x1fa3_2aad);
    Turned(0x1fa3_2aad);
    assert Rounds(k, 6, s) == Pair(0xba19_2575, 0x19ed_4020);
    Turned(0x19ed_4020);
    assert Rounds(k, 7, s) == Pair(0xd406_6595, 0x9426_7c78);
    Turned(0x9426_7c78);
  }

  lemma PiTwelve(k: seq<Word>, s: Pair)
    requires k == [0x1319_8a2e, 0x0370_7344, 0x0bb8_e2b0]
    requires Rounds(k, 8, s) == Pair(0x73e5_c4bd, 0x23d2_4ea1)
    ensures Rounds(k, 12, s) == Pair(0x2960_a304, 0x90dd_a421)
  {
    hide Rot;
    Turned(0x23d2_4ea1);
    assert Rounds(k, 9, s) == Pair(0x97b8_135e, 0xde6c_3724);
    Turned(0xde6c_3724);
    assert Rounds(k, 10, s) == Pair(0x7624_4a82, 0x6db6_25b4);
    Turned(0x6db6_25b4);
    assert Rounds(k, 11, s) == Pair(0xe3da_7036, 0x326c_a8a0);
    Turned(0x326c_a8a0);
  }

  lemma PiSixteen(k: seq<Word>, s: Pair)
    requires k == [0x1319_8a2e, 0x0370_7344, 0x0bb8_e2b0]
    requires Rounds(k, 12, s) == Pair(0x2960_a304, 0x90dd_a421)
    ensures Rounds(k, 16, s) == Pair(0x41df_fe3e, 0x252a_17da)
  {
    hide Rot;
    Turned(0x90dd_a421);
    assert Rounds(k, 13, s) == Pair(0xba3e_4725, 0xf27d_669e);
    Turned(0xf27d_669e);
    assert Rounds(k, 14, s) == Pair(0xacbb_adc3, 0x72f4_0110);
    Turned(0x72f4_0110);
    assert Rounds(k, 15, s) == Pair(0x1faf_aed3, 0x1ebf_dc27);
    Turned(0x1ebf_dc27);
  }

  lemma PiEighteen(k: seq<Word>, s: Pair)
    requires k == [0x1319_8a2e, 0x0370_7344, 0x0bb8_e2b0]
    requires Rounds(k, 16, s) == Pair(0x41df_fe3e, 0x252a_17da)
    ensures Rounds(k, 18, s) == Pair(0x8cfb_68d5, 0x25a5_fa2d)
  {
    hide Rot;
    Turned(0x252a_17da);
    assert Rounds(k, 17, s) == Pair(0x670a_1618, 0x25f1_52bd);
    Turned(0x25f1_52bd);
  }

  lemma PiTwenty(k: seq<Word>, s: Pair)
    requires k == [0x1319_8a2e, 0x0370_7344, 0x0bb8_e2b0]
    requires Rounds(k, 18, s) == Pair(0x8cfb_68d5, 0x25a5_fa2d)
    ensures Rounds(k, 20, s) == Pair(0xc492_3a9c, 0x483d_f7a0)
  {
    hide Rot;
    Turned(0x25a5_fa2d);
    assert Rounds(k, 19, s) == Pair(0xb2a1_6302, 0x0637_f4ea);
    Turned(0x0637_f4ea);
  }

  /** The published answer for the digits of pi as counters and key, in which every word differs. */
  lemma PiVector()
    ensures Cipher(0x1319_8a2e, 0x0370_7344, Pair(0x243f_6a88, 0x85a3_08d3)) == Pair(0xc492_3a9c, 0x483d_f7a0)
  {
    hide Round;
    var k := Schedule(0x1319_8a2e, 0x0370_7344);
    var s := Pair(Add(0x243f_6a88, 0x1319_8a2e), Add(0x85a3_08d3, 0x0370_7344));
    PiFour(k, s);
    PiEight(k, s);
    PiTwelve(k, s);
    PiSixteen(k, s);
    PiEighteen(k, s);
    PiTwenty(k, s);
  }

  // Words

  /** An unsigned 64-bit number by its halves. */
  datatype Long = Long(high: Word, low: Word)

  predicate Below(x: Long, y: Long) {
    Less(x.high, y.high) || (x.high == y.high && Less(x.low, y.low))
  }

  function Plus(x: Long, y: Long): Long {
    var low := Add(x.low, y.low);
    Long(Add(Add(x.high, y.high), if Less(low, x.low) then 1 else 0), low)
  }

  lemma PlusLow(x: Long, y: Long)
    ensures Plus(x, y).low == Add(x.low, y.low)
  {
  }

  function Minus(x: Long, y: Long): Long {
    Long(Sub(Sub(x.high, y.high), if Less(x.low, y.low) then 1 else 0), Sub(x.low, y.low))
  }

  lemma BelowIs(x: Long, y: Long)
    ensures Below(x, y) <==> Less(x.high, y.high) || (x.high == y.high && Less(x.low, y.low))
  {
    hide Less;
  }

  /** The counters of word `i` as a lane of the first half, and as the partner of one. */
  lemma LaneCounters(i: Long, pairs: Long)
    ensures Plus(i, pairs).low == Add(i.low, pairs.low)
    ensures Minus(i, pairs).low == Sub(i.low, pairs.low) && Plus(Minus(i, pairs), pairs).low == i.low
  {
    hide Add, Sub, Plus, Minus;
    PlusLow(i, pairs);
    MinusLow(i, pairs);
    PlusLow(Minus(i, pairs), pairs);
    SubBack(i.low, pairs.low);
  }

  lemma MinusLow(x: Long, y: Long)
    ensures Minus(x, y).low == Sub(x.low, y.low)
  {
  }

  /**
   * Word `i` of a stream of `pairs` lanes, under the key drawn from the outer counters: first all first halves, whose
   * counters are `i` and `i + pairs`, then all second halves, whose counters are `i - pairs` and `i`, all truncated.
   */
  method Draw(k0: Word, k1: Word, c0: Word, c1: Word, pairs: Long, i: Long) returns (w: Word)
    ensures var d := Cipher(k0, k1, Pair(c0, c1));
            w == if Less(i.high, pairs.high) || (i.high == pairs.high && Less(i.low, pairs.low))
                 then Cipher(d.a, d.b, Pair(i.low, Add(i.low, pairs.low))).a
                 else Cipher(d.a, d.b, Pair(Sub(i.low, pairs.low), i.low)).b
  {
    hide Cipher, Add, Sub, Plus, Minus, Below, Less;
    BelowIs(i, pairs);
    var dk0, dk1 := Generate(k0, k1, c0, c1);
    var first := Below(i, pairs);
    var lane := if first then i else Minus(i, pairs);
    LaneCounters(i, pairs);
    var a, b := Generate(dk0, dk1, lane.low, Plus(lane, pairs).low);
    return if first then a else b;
  }

  /** The two words of a lane: both halves of one generator call on the lane's truncated counters. */
  function LanePair(k0: Word, k1: Word, lane: Long, pairs: Long): Pair {
    Cipher(k0, k1, Pair(lane.low, Plus(lane, pairs).low))
  }

  /** Two lanes produce the same pair of words exactly when their numbers agree modulo 2^32. */
  lemma LanesDiffer(k0: Word, k1: Word, x: Long, y: Long, pairs: Long)
    ensures LanePair(k0, k1, x, pairs) == LanePair(k0, k1, y, pairs) <==> x.low == y.low
  {
    hide Cipher, Add, Plus;
    PlusLow(x, pairs);
    PlusLow(y, pairs);
    CipherIsBijection(k0, k1, Pair(x.low, Plus(x, pairs).low), Pair(y.low, Plus(y, pairs).low), Pair(0, 0));
  }
}
