/** 32-bit words: unsigned arithmetic modulo 2^32 and single bits. */
module Words {
  import opened NumberTheory

  const W := 0x1_0000_0000

  type u32 = x: int | 0 <= x < W

  function Add(a: int, b: int): u32 {
    (a + b) % W
  }

  function Sub(a: int, b: int): u32 {
    (a - b) % W
  }

  /** (signed int) x > 0 */
  predicate SignedPositive(x: u32) {
    0 < x < W / 2
  }

  lemma AddMod(a: int, b: int)
    ensures Add(a % W, b) == (a + b) % W
  {
    var q := a / W;
    assert a == W * q + a % W;
    ModUnique(a + b, W, q + (a % W + b) / W, (a % W + b) % W);
  }

  /** Comparing wrapped numbers by the sign of their difference is right while they are less than
      half the range apart. */
  lemma SignedCompare(a: int, b: int)
    requires -(W / 2) < a - b < W / 2
    ensures SignedPositive(Sub(a % W, b % W)) <==> a > b
  {
    var d, q := a - b, a / W - b / W;
    assert a % W - b % W == d - W * q;
    if d >= 0 {
      ModUnique(a % W - b % W, W, -q, d);
    } else {
      ModUnique(a % W - b % W, W, -q - 1, d + W);
    }
  }

  // ---- bits -------------------------------------------------------------------------------

  type word = bv32

  function Shl(w: word, k: nat): word
    requires k < 32
  {
    w << k
  }

  function Shr(w: word, k: nat): word
    requires k < 32
  {
    w >> k
  }

  function Get(w: word, k: nat): word
    requires k < 32
  {
    Shr(w, k) & 1
  }

  function Put(w: word, k: nat, d: word): word
    requires k < 32
  {
    w | Shl(d, k)
  }

  function GetBv(w: word, k: word): word
    requires k < 32
  {
    (w >> k) & 1
  }

  function ShlBv(w: word, k: word): word
    requires k < 32
  {
    w << k
  }

  lemma NatOfBv(k: nat)
    requires k < 32
    ensures (k as bv32) as nat == k
  {
  }

  lemma SmallBv(k: nat)
    requires k < 32
    ensures (k as bv32) < 32
  {
  }

  lemma ShlForm(w: word, k: nat)
    requires k < 32
    ensures (k as bv32) < 32
    ensures Shl(w, k) == w << (k as bv32)
  {
    SmallBv(k);
  }

  lemma ShrForm(w: word, k: nat)
    requires k < 32
    ensures (k as bv32) < 32
    ensures Shr(w, k) == w >> (k as bv32)
  {
    SmallBv(k);
  }

  lemma ShlSame(w: word, k: nat)
    requires k < 32
    ensures (k as bv32) < 32 && Shl(w, k) == ShlBv(w, k as bv32)
  {
    hide Shl;
    ShlForm(w, k);
  }

  lemma GetSame(w: word, k: nat)
    requires k < 32
    ensures (k as bv32) < 32 && Get(w, k) == GetBv(w, k as bv32)
  {
    hide Shr;
    ShrForm(w, k);
  }

  lemma PutBv(w: word, d: word, a: word, b: word)
    requires a < 32 && b < 32 && d <= 1 && GetBv(w, a) == 0
    ensures GetBv(w | ShlBv(d, a), b) == if a == b then d else GetBv(w, b)
  {
  }

  /** OR-ing a bit into a cleared place sets that bit and no other. */
  lemma GetPut(w: word, j: nat, k: nat, d: word)
    requires j < 32 && k < 32 && d <= 1 && Get(w, k) == 0
    ensures Get(Put(w, k, d), j) == if j == k then d else Get(w, j)
  {
    hide Get, Shr, Shl, GetBv, ShlBv;
    NatOfBv(j);
    NatOfBv(k);
    ShlSame(d, k);
    GetSame(w, k);
    GetSame(w, j);
    GetSame(Put(w, k, d), j);
    PutBv(w, d, k as bv32, j as bv32);
  }

  lemma GetZero(k: nat)
    requires k < 32
    ensures Get(0, k) == 0
  {
  }
}
