/** The quadratic permutation polynomial (QPP) interleaver of the LTE turbo code
    (srslte/lib/fec/tc_interl_lte.c, section 5.1.3.2.3 of TS 36.212). */
module TurboInterleaver {
  import opened NumberTheory
  import opened Permutations
  import opened CodeBlockSizes

  /** One row of the parameter table; inv is the inverse of f1 modulo k. */
  datatype Row = Row(k: nat, f1: nat, f2: nat, inv: nat)

  /** A certificate that f1 is a unit modulo k and that every prime of k divides f2. */
  predicate Certified(r: Row) {
    && r.k > 0
    && (r.f1 * r.inv) % r.k == 1
    && (r.f2 * r.f2 * r.f2 * r.f2 * r.f2 * r.f2 * r.f2) % r.k == 0
  }

  type QppRow = r: Row | Certified(r) witness Row(40, 3, 10, 27)

  function RowOf8(k: int, a: QppRow, b: QppRow, c: QppRow, d: QppRow,
                  e: QppRow, f: QppRow, g: QppRow, h: QppRow): QppRow {
    if k < 4 then if k < 2 then if k < 1 then a else b else if k < 3 then c else d
    else if k < 6 then if k < 5 then e else f else if k < 7 then g else h
  }

  function RowsBelow64(i: nat): QppRow
    requires 0 <= i < 64
  {
    if i < 8 then RowOf8(i,
      Row(40, 3, 10, 27), Row(48, 7, 12, 7), Row(56, 19, 42, 3), Row(64, 7, 16, 55),
      Row(72, 7, 18, 31), Row(80, 11, 20, 51), Row(88, 5, 22, 53), Row(96, 11, 24, 35))
    else if i < 16 then RowOf8(i - 8,
      Row(104, 7, 26, 15), Row(112, 41, 84, 41), Row(120, 103, 90, 7), Row(128, 15, 32, 111),
      Row(136, 9, 34, 121), Row(144, 17, 108, 17), Row(152, 9, 38, 17), Row(160, 21, 120, 61))
    else if i < 24 then RowOf8(i - 16,
      Row(168, 101, 84, 5), Row(176, 21, 44, 109), Row(184, 57, 46, 113), Row(192, 23, 48, 167),
      Row(200, 13, 50, 77), Row(208, 27, 52, 131), Row(216, 11, 36, 59), Row(224, 27, 56, 83))
    else if i < 32 then RowOf8(i - 24,
      Row(232, 85, 58, 101), Row(240, 29, 60, 149), Row(248, 33, 62, 233), Row(256, 15, 32, 239),
      Row(264, 17, 198, 233), Row(272, 33, 68, 33), Row(280, 103, 210, 87), Row(288, 19, 36, 91))
    else if i < 40 then RowOf8(i - 32,
      Row(296, 19, 74, 187), Row(304, 37, 76, 189), Row(312, 19, 78, 115), Row(320, 21, 120, 61),
      Row(328, 21, 82, 125), Row(336, 115, 84, 187), Row(344, 193, 86, 41), Row(352, 21, 44, 285))
    else if i < 48 then RowOf8(i - 40,
      Row(360, 133, 90, 157), Row(368, 81, 46, 209), Row(376, 45, 94, 117), Row(384, 23, 48, 167),
      Row(392, 243, 98, 171), Row(400, 151, 40, 151), Row(408, 155, 102, 179), Row(416, 25, 52, 233))
    else if i < 56 then RowOf8(i - 48,
      Row(424, 51, 106, 291), Row(432, 47, 72, 239), Row(440, 91, 110, 411), Row(448, 29, 168, 309),
      Row(456, 29, 114, 173), Row(464, 247, 58, 263), Row(472, 29, 118, 293), Row(480, 89, 180, 329))
    else RowOf8(i - 56,
      Row(488, 91, 122, 59), Row(496, 157, 62, 357), Row(504, 55, 84, 55), Row(512, 31, 64, 479),
      Row(528, 17, 66, 497), Row(544, 35, 68, 171), Row(560, 227, 420, 523), Row(576, 65, 96, 257))
  }

  function RowsBelow128(i: nat): QppRow
    requires 64 <= i < 128
  {
    if i < 72 then RowOf8(i - 64,
      Row(592, 19, 74, 187), Row(608, 37, 76, 493), Row(624, 41, 234, 137), Row(640, 39, 80, 279),
      Row(656, 185, 82, 617), Row(672, 43, 252, 547), Row(688, 21, 86, 557), Row(704, 155, 44, 595))
    else if i < 80 then RowOf8(i - 72,
      Row(720, 79, 120, 319), Row(736, 139, 92, 323), Row(752, 23, 94, 327), Row(768, 217, 48, 361),
      Row(784, 25, 98, 345), Row(800, 17, 80, 753), Row(816, 127, 102, 559), Row(832, 25, 52, 233))
    else if i < 88 then RowOf8(i - 80,
      Row(848, 239, 106, 479), Row(864, 17, 48, 305), Row(880, 137, 110, 713), Row(896, 215, 112, 871),
      Row(912, 29, 114, 629), Row(928, 15, 58, 495), Row(944, 147, 118, 411), Row(960, 29, 60, 629))
    else if i < 96 then RowOf8(i - 88,
      Row(976, 59, 122, 579), Row(992, 65, 124, 641), Row(1008, 55, 84, 55), Row(1024, 31, 64, 991),
      Row(1056, 17, 66, 497), Row(1088, 171, 204, 579), Row(1120, 67, 140, 1003), Row(1152, 35, 72, 395))
    else if i < 104 then RowOf8(i - 96,
      Row(1184, 19, 74, 187), Row(1216, 39, 76, 343), Row(1248, 19, 78, 1051), Row(1280, 199, 240, 759),
      Row(1312, 21, 82, 125), Row(1344, 211, 252, 1051), Row(1376, 21, 86, 1245), Row(1408, 43, 88, 131))
    else if i < 112 then RowOf8(i - 104,
      Row(1440, 149, 60, 29), Row(1472, 45, 92, 229), Row(1504, 49, 846, 1105), Row(1536, 71, 48, 887),
      Row(1568, 13, 28, 965), Row(1600, 17, 80, 753), Row(1632, 25, 102, 457), Row(1664, 183, 104, 391))
    else if i < 120 then RowOf8(i - 112,
      Row(1696, 55, 954, 1511), Row(1728, 127, 96, 1279), Row(1760, 27, 110, 1043), Row(1792, 29, 112, 309),
      Row(1824, 29, 114, 629), Row(1856, 57, 116, 521), Row(1888, 45, 354, 965), Row(1920, 31, 120, 991))
    else RowOf8(i - 120,
      Row(1952, 59, 610, 1555), Row(1984, 185, 124, 1673), Row(2016, 113, 420, 785), Row(2048, 31, 64, 991),
      Row(2112, 17, 66, 497), Row(2176, 171, 136, 1667), Row(2240, 209, 420, 1329), Row(2304, 253, 216, 1621))
  }

  function RowsBelow188(i: nat): QppRow
    requires 128 <= i < 188
  {
    if i < 136 then RowOf8(i - 128,
      Row(2368, 367, 444, 271), Row(2432, 265, 456, 569), Row(2496, 181, 468, 1117), Row(2560, 39, 80, 919),
      Row(2624, 27, 164, 1555), Row(2688, 127, 504, 127), Row(2752, 143, 172, 943), Row(2816, 43, 88, 131))
    else if i < 144 then RowOf8(i - 136,
      Row(2880, 29, 300, 1589), Row(2944, 45, 92, 1701), Row(3008, 157, 188, 2165), Row(3072, 47, 96, 719),
      Row(3136, 13, 28, 965), Row(3200, 111, 240, 2191), Row(3264, 443, 204, 2483), Row(3328, 51, 104, 3067))
    else if i < 152 then RowOf8(i - 144,
      Row(3392, 51, 212, 3259), Row(3456, 451, 192, 1387), Row(3520, 257, 220, 2753), Row(3584, 57, 336, 3081),
      Row(3648, 313, 228, 1993), Row(3712, 271, 232, 2671), Row(3776, 179, 236, 443), Row(3840, 331, 120, 1891))
    else if i < 160 then RowOf8(i - 152,
      Row(3904, 363, 244, 1667), Row(3968, 375, 248, 455), Row(4032, 127, 168, 127), Row(4096, 31, 64, 3039),
      Row(4160, 33, 130, 2017), Row(4224, 43, 264, 2947), Row(4288, 33, 134, 2209), Row(4352, 477, 408, 885))
    else if i < 168 then RowOf8(i - 160,
      Row(4416, 35, 138, 3659), Row(4480, 233, 280, 4057), Row(4544, 357, 142, 3373), Row(4608, 337, 480, 1969),
      Row(4672, 37, 146, 1389), Row(4736, 71, 444, 2935), Row(4800, 71, 120, 2231), Row(4864, 37, 152, 1709))
    else if i < 176 then RowOf8(i - 168,
      Row(4928, 39, 462, 3159), Row(4992, 127, 234, 511), Row(5056, 39, 158, 1815), Row(5120, 39, 80, 919),
      Row(5184, 31, 96, 3679), Row(5248, 113, 902, 2833), Row(5312, 41, 166, 2073), Row(5376, 251, 336, 2099))
    else if i < 184 then RowOf8(i - 176,
      Row(5440, 43, 170, 5187), Row(5504, 21, 86, 2621), Row(5568, 43, 174, 259), Row(5632, 45, 176, 4005),
      Row(5696, 45, 178, 2405), Row(5760, 161, 120, 3041), Row(5824, 89, 182, 4777), Row(5888, 323, 184, 875))
    else RowOf8(i - 184,
      Row(5952, 47, 186, 4559), Row(6016, 23, 94, 1831), Row(6080, 47, 190, 1423), Row(6144, 263, 480, 5303),
      Row(6144, 263, 480, 5303), Row(6144, 263, 480, 5303), Row(6144, 263, 480, 5303), Row(6144, 263, 480, 5303))
  }

  /** f1_list and f2_list; that each row is certified is checked with the table. */
  function QppRowAt(i: nat): QppRow
    requires i < NOF_TC_CB_SIZES
  {
    if i < 64 then RowsBelow64(i) else if i < 128 then RowsBelow128(i) else RowsBelow188(i)
  }

  lemma RowBelongsToSize(i: nat)
    requires i < NOF_TC_CB_SIZES
    ensures QppRowAt(i).k == BlockSize(i)
  {
  }

  /** gcd(f1, k) == 1 and every prime factor of k divides f2. */
  ghost predicate QppCondition(k: nat, f1: nat, f2: nat) {
    && k > 0
    && Coprime(f1, k)
    && forall p {:trigger IsPrime(p)} :: IsPrime(p) && Divides(p, k) ==> Divides(p, f2)
  }

  function Qpp(k: nat, f1: nat, f2: nat, i: nat): (j: nat)
    requires k > 0
  {
    (f1 * i + f2 * i * i) % k
  }

  /** t starts at 0 and f1 + f2 and bends by 2 f2 at every step, all modulo k: the table of a
      quadratic polynomial without constant term. */
  ghost predicate Quadratic(t: seq<nat>, k: nat, f1: nat, f2: nat)
    requires k > 0
  {
    && (|t| > 0 ==> t[0] == 0)
    && (|t| > 1 ==> t[1] == (f1 + f2) % k)
    && (forall i :: 0 <= i < |t| ==> t[i] < k)
    && forall i: nat {:trigger Bends(t, k, f2, i)} :: i + 2 < |t| ==> Bends(t, k, f2, i)
  }

  ghost predicate Bends(t: seq<nat>, k: nat, f2: nat, i: nat)
    requires k > 0 && i + 2 < |t|
  {
    Mod(t[i + 2] + t[i], k) == Mod(2 * t[i + 1] + 2 * f2, k)
  }

  function Mod(a: nat, k: nat): nat
    requires k > 0
  {
    a % k
  }

  lemma SameResidue(a: int, b: int, q: int, k: int)
    requires k > 0 && a == b + k * q
    ensures a % k == b % k
  {
    ModUnique(a, k, b / k + q, b % k);
  }

  /** The polynomial bends evenly. */
  lemma QppBends(k: nat, f1: nat, f2: nat, i: nat)
    requires k > 0
    ensures Qpp(k, f1, f2, 0) == 0 && Qpp(k, f1, f2, 1) == (f1 + f2) % k
    ensures Mod(Qpp(k, f1, f2, i + 2) + Qpp(k, f1, f2, i), k) == Mod(2 * Qpp(k, f1, f2, i + 1) + 2 * f2, k)
  {
    ModUnique(0, k, 0, 0);
    SecondDifference(f1, f2, i);
    ResiduesBend(f1 * i + f2 * i * i, f1 * (i + 1) + f2 * (i + 1) * (i + 1), f1 * (i + 2) + f2 * (i + 2) * (i + 2),
                 f2, k);
  }

  lemma ResiduesBend(a: nat, b: nat, c: nat, f2: nat, k: nat)
    requires k > 0 && c + a == 2 * b + 2 * f2
    ensures Mod(c % k + a % k, k) == Mod(2 * (b % k) + 2 * f2, k)
  {
    var x, y, z := a / k, b / k, c / k;
    assert a == k * x + a % k && b == k * y + b % k && c == k * z + c % k;
    assert k * (2 * y - z - x) == 2 * (k * y) - k * z - k * x;
    SameResidue(c % k + a % k, 2 * (b % k) + 2 * f2, 2 * y - z - x, k);
  }

  lemma SecondDifference(f1: int, f2: int, i: int)
    ensures (f1 * (i + 2) + f2 * (i + 2) * (i + 2)) + (f1 * i + f2 * i * i) ==
            2 * (f1 * (i + 1) + f2 * (i + 1) * (i + 1)) + 2 * f2
  {
    assert f2 * (i + 2) * (i + 2) == f2 * i * i + 4 * (f2 * i) + 4 * f2;
    assert f2 * (i + 1) * (i + 1) == f2 * i * i + 2 * (f2 * i) + f2;
  }

  lemma QuadraticStart(t: seq<nat>, k: nat, f1: nat, f2: nat, i: nat)
    requires k > 0 && Quadratic(t, k, f1, f2) && i < |t| && i < 2
    ensures t[i] == Qpp(k, f1, f2, i)
  {
    hide Bends;
    QppBends(k, f1, f2, 0);
  }

  lemma QuadraticNext(t: seq<nat>, k: nat, f1: nat, f2: nat, i: nat)
    requires k > 0 && Quadratic(t, k, f1, f2) && 2 <= i < |t|
    requires t[i - 1] == Qpp(k, f1, f2, i - 1) && t[i - 2] == Qpp(k, f1, f2, i - 2)
    ensures t[i] == Qpp(k, f1, f2, i)
  {
    hide Qpp, Mod;
    assert Bends(t, k, f2, i - 2);
    QppBends(k, f1, f2, i - 2);
    QppBelow(k, f1, f2, i);
    Bent(k, f2, t[i], Qpp(k, f1, f2, i), t[i - 1], t[i - 2]);
  }

  /** The table of the polynomial is the only sequence that starts and bends like that. */
  lemma {:induction false} QuadraticIsQpp(t: seq<nat>, k: nat, f1: nat, f2: nat, i: nat)
    requires k > 0 && Quadratic(t, k, f1, f2) && i < |t|
    ensures t[i] == Qpp(k, f1, f2, i)
    decreases i
  {
    hide Qpp, Quadratic;
    if i < 2 {
      QuadraticStart(t, k, f1, f2, i);
    } else {
      QuadraticIsQpp(t, k, f1, f2, i - 1);
      QuadraticIsQpp(t, k, f1, f2, i - 2);
      QuadraticNext(t, k, f1, f2, i);
    }
  }

  lemma QppBelow(k: nat, f1: nat, f2: nat, i: nat)
    requires k > 0
    ensures Qpp(k, f1, f2, i) < k
  {
  }

  lemma Bent(k: nat, f2: nat, a: nat, b: nat, y: nat, z: nat)
    requires k > 0 && a < k && b < k
    requires Mod(a + z, k) == Mod(2 * y + 2 * f2, k) == Mod(b + z, k)
    ensures a == b
  {
    CancelAddend(a, b, z, k);
  }

  lemma CancelAddend(a: nat, b: nat, c: nat, k: nat)
    requires k > 0 && a < k && b < k && (a + c) % k == (b + c) % k
    ensures a == b
  {
    var q := (a + c) / k - (b + c) / k;
    assert a == k * q + b;
    ModUnique(a, k, q, b);
    ModUnique(a, k, 0, a);
  }

  lemma QppIsQuadratic(t: seq<nat>, k: nat, f1: nat, f2: nat)
    requires k > 0 && forall i :: 0 <= i < |t| ==> t[i] == Qpp(k, f1, f2, i)
    ensures Quadratic(t, k, f1, f2)
  {
    hide Qpp;
    QppBends(k, f1, f2, 0);
    forall i | 0 <= i < |t|
      ensures t[i] < k
    {
      QppBelow(k, f1, f2, i);
    }
    forall i: nat {:trigger Bends(t, k, f2, i)} | i + 2 < |t|
      ensures Bends(t, k, f2, i)
    {
      QppBends(k, f1, f2, i);
    }
  }

  lemma PrimeOfPower7(p: int, b: nat)
    requires IsPrime(p) && Divides(p, b * b * b * b * b * b * b)
    ensures Divides(p, b)
  {
    if !Divides(p, b) {
      Euclid(p, b, b * b * b * b * b * b) by {
        assert b * (b * b * b * b * b * b) == b * b * b * b * b * b * b;
      }
      Euclid(p, b, b * b * b * b * b) by {
        assert b * (b * b * b * b * b) == b * b * b * b * b * b;
      }
      Euclid(p, b, b * b * b * b) by { assert b * (b * b * b * b) == b * b * b * b * b; }
      Euclid(p, b, b * b * b) by { assert b * (b * b * b) == b * b * b * b; }
      Euclid(p, b, b * b) by { assert b * (b * b) == b * b * b; }
      Euclid(p, b, b);
    }
  }

  /** Every row of the standard's table meets the QPP condition. */
  lemma RowMeetsCondition(i: nat)
    requires i < NOF_TC_CB_SIZES
    ensures QppCondition(BlockSize(i), QppRowAt(i).f1, QppRowAt(i).f2)
  {
    RowBelongsToSize(i);
    CertifiedMeetsCondition(QppRowAt(i));
  }

  lemma CertifiedMeetsCondition(r: QppRow)
    ensures QppCondition(r.k, r.f1, r.f2)
  {
    forall p {:trigger IsPrime(p)} | IsPrime(p) && Divides(p, r.k)
      ensures Divides(p, r.f2) && !Divides(p, r.f1)
    {
      var power := r.f2 * r.f2 * r.f2 * r.f2 * r.f2 * r.f2 * r.f2;
      DividesTransitive(p, r.k, power);
      PrimeOfPower7(p, r.f2);
      if Divides(p, r.f1) {
        var product := r.f1 * r.inv;
        DividesProduct(p, r.f1, r.inv);
        var q := product / r.k;
        assert product == r.k * q + 1;
        DividesProduct(p, r.k, q);
        DividesSum(p, product, r.k * q);
        assert product - r.k * q == 1;
        ModUnique(1, p, 0, 1);
      }
    }
  }

  /** Two different indices never meet: their difference times a unit is not divisible by k. */
  lemma QppInjective(k: nat, f1: nat, f2: nat, i: nat, j: nat)
    requires QppCondition(k, f1, f2) && i < j < k
    ensures Qpp(k, f1, f2, i) != Qpp(k, f1, f2, j)
  {
    var a, b := f1 * i + f2 * i * i, f1 * j + f2 * j * j;
    if a % k == b % k {
      var slope := f1 + f2 * (i + j);
      assert b - a == (j - i) * slope;
      assert b - a == k * (b / k - a / k);
      MultipleDivides(k, b / k - a / k);
      assert Coprime(slope, k) by {
        forall p {:trigger IsPrime(p)} | IsPrime(p) && Divides(p, slope)
          ensures !Divides(p, k)
        {
          if Divides(p, k) {
            DividesProduct(p, f2, i + j);
            DividesSum(p, slope, f2 * (i + j));
          }
        }
      }
      CancelCoprime(k, j - i, slope);
      ModUnique(j - i, k, 0, j - i);
    }
  }

  /** The interleaver table the generator builds for size index idx. */
  ghost function QppTable(idx: nat): (t: seq<nat>)
    requires idx < NOF_TC_CB_SIZES
    ensures |t| == BlockSize(idx)
  {
    RowBelongsToSize(idx);
    seq(BlockSize(idx), i requires 0 <= i => Qpp(BlockSize(idx), QppRowAt(idx).f1, QppRowAt(idx).f2, i))
  }

  /** For all 188 sizes the table is a permutation. */
  lemma QppTableIsPermutation(idx: nat)
    requires idx < NOF_TC_CB_SIZES
    ensures IsPermutation(QppTable(idx))
  {
    RowMeetsCondition(idx);
    var k, t, r := BlockSize(idx), QppTable(idx), QppRowAt(idx);
    forall i, j | 0 <= i < j < k
      ensures t[i] != t[j]
    {
      QppInjective(k, r.f1, r.f2, i, j);
    }
  }

  /** srslte_tc_interl_t */
  class Interleaver {
    const forward: array<nat>
    const reverse: array<nat>
    const maxLongCb: nat

    ghost predicate Valid() {
      forward.Length == maxLongCb && reverse.Length == maxLongCb && forward != reverse && maxLongCb > 0
    }

    /** srslte_tc_interl_init */
    constructor (maxLongCb: nat)
      requires maxLongCb > 0
      ensures Valid() && this.maxLongCb == maxLongCb && fresh(forward) && fresh(reverse)
    {
      this.maxLongCb := maxLongCb;
      forward := new nat[maxLongCb](_ => 0);
      reverse := new nat[maxLongCb](_ => 0);
    }

    /** The generating loop, for any modulus and any pair of coefficients. */
    method Fill(k: nat, f1: nat, f2: nat)
      requires Valid() && 0 < k <= maxLongCb
      modifies forward, reverse
      ensures forward[..k] == seq(k, i requires 0 <= i => Qpp(k, f1, f2, i))
      ensures IsPermutation(forward[..k]) ==> MutuallyInverse(forward[..k], reverse[..k])
    {
      ghost var t: seq<nat> := seq(k, i requires 0 <= i => Qpp(k, f1, f2, i));
      forward[0] := 0;
      reverse[0] := 0;
      assert t[0] == 0 by { ModUnique(0, k, 0, 0); }
      for i := 1 to k
        invariant forward[..i] == t[..i]
        invariant IsPermutation(t) ==> forall n :: 0 <= n < i ==> reverse[t[n]] == n
      {
        var j := (f1 * i + f2 * i * i) % k;
        assert j == t[i];
        forward[i] := j;
        reverse[j] := i;
        assert t[..i + 1] == t[..i] + [j];
      }
      assert forward[..k] == t;
      if IsPermutation(t) { ScanInverts(t, reverse[..k]); }
    }

    /** srslte_tc_interl_LTE_gen: for a block size of the table, forward becomes the QPP table
        and reverse its inverse. */
    method LteGen(longCb: nat) returns (ret: int)
      requires Valid() && longCb > 0
      modifies forward, reverse
      ensures ret == if longCb <= maxLongCb && longCb <= MAX_LEN_CB then 0 else ERROR
      ensures ret != 0 ==> forward[..] == old(forward[..]) && reverse[..] == old(reverse[..])
      ensures ret == 0 && IsCbSize(longCb) ==>
              && forward[..longCb] == QppTable(IndexFor(longCb))
              && Quadratic(forward[..longCb], longCb, QppRowAt(IndexFor(longCb)).f1, QppRowAt(IndexFor(longCb)).f2)
              && MutuallyInverse(forward[..longCb], reverse[..longCb])
    {
      if longCb <= MAX_LEN_CB { IndexForExact(longCb); }
      if longCb > maxLongCb { return ERROR; }
      var idx := CbIndex(longCb);
      if idx == ERROR { return ERROR; }
      var row := QppRowAt(idx);
      Fill(longCb, row.f1, row.f2);
      QppIsQuadratic(forward[..longCb], longCb, row.f1, row.f2);
      QppTableIsPermutation(idx);
      return 0;
    }
  }
}
