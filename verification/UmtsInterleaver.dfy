/** The UMTS turbo interleaver of srslte/lib/fec/tc_interl_umts.c: a matrix whose rows are permuted by
    powers of a primitive root, whose rows are themselves reordered, and which is read out by columns
    without the positions past the end of the block. */
module UmtsInterleaver {
  import opened NumberTheory
  import opened Permutations
  import opened PrimitiveRoots
  import opened TurboInterleaver

  const MAX_ROWS := 20
  const MAX_COLS := 256
  /** The work array of the generator holds this many cells, enough for every block it is meant for. */
  const MAX_CELLS := MAX_ROWS * MAX_COLS

  // ---- the shape of the matrix ----

  function Rows(k: nat): (r: nat)
    ensures r == 5 || r == 10 || r == 20
  {
    if 40 <= k <= 159 then 5 else if 160 <= k <= 200 || 481 <= k <= 530 then 10 else 20
  }

  function FirstFit(k: nat, rows: nat, i: nat): (f: nat)
    requires i < NOF_PRIMES
    ensures i <= f < NOF_PRIMES
    ensures f < NOF_PRIMES - 1 ==> k <= rows * (TableP(f) + 1)
    ensures forall j :: i <= j < f ==> k > rows * (TableP(j) + 1)
    decreases NOF_PRIMES - i
  {
    if i == NOF_PRIMES - 1 || k <= rows * (TableP(i) + 1) then i else FirstFit(k, rows, i + 1)
  }

  function PrimeIndex(k: nat): (i: nat)
    ensures i < NOF_PRIMES
  {
    if 481 <= k <= 530 then 12 else FirstFit(k, Rows(k), 0)
  }

  function Columns(k: nat, rows: nat, p: nat): (c: nat)
    requires p > 0
    ensures p - 1 <= c <= p + 1
  {
    if k <= rows * (p - 1) then p - 1 else if k <= rows * p then p else p + 1
  }

  datatype Shape = Shape(k: nat, rows: nat, cols: nat, p: nat, v: nat)

  lemma TableBounds(i: nat)
    requires i < NOF_PRIMES
    ensures 7 <= TableP(i) <= 257 && (i < NOF_PRIMES - 1 ==> TableP(i) <= 251)
    ensures TableP(12) == 53 && TableV(12) == 2 && TableP(51) == 257
  {
  }

  function ShapeOf(k: nat): (m: Shape)
  {
    var i := PrimeIndex(k);
    TableBounds(i);
    Shape(k, Rows(k), Columns(k, Rows(k), TableP(i)), TableP(i), TableV(i))
  }

  ghost predicate Sound(m: Shape) {
    && m.rows == Rows(m.k) && 3 < m.p <= 257 && m.p - 1 <= m.cols <= m.p + 1
    && PrimitiveRoot(m.p, m.v)
    && m.k <= m.rows * m.cols <= MAX_CELLS
  }

  /** Every block length the work array allows has a matrix that holds it. */
  lemma ShapeIsSound(k: nat)
    requires k <= MAX_CELLS
    ensures Sound(ShapeOf(k))
  {
    hide PrimitiveRoot;
    var i := PrimeIndex(k);
    TableOfRoots(i);
    TableBounds(i);
    TableBounds(12);
    var r, p := Rows(k), TableP(i);
    assert k <= r * (p + 1) by { if i == 51 && !(481 <= k <= 530) { assert p == 257; } }
    var c := Columns(k, r, p);
    if r == 20 { assert c <= 256; }
  }

  /** What the shape is: five, ten or twenty rows by the length; but for 481 to 530 bits, where p is 53,
      the first tabulated prime with which p + 1 columns suffice; and the fewest columns from p - 1 on
      that do. */
  lemma ShapeIs(k: nat)
    requires k <= MAX_CELLS
    ensures var m, i := ShapeOf(k), PrimeIndex(k);
            && (m.rows == 5 <==> 40 <= k <= 159) && (m.rows == 10 <==> 160 <= k <= 200 || 481 <= k <= 530)
            && m.p == TableP(i) && m.v == TableV(i) && (481 <= k <= 530 ==> m.p == 53)
            && (481 <= k <= 530 || forall j :: 0 <= j < i ==> k > m.rows * (TableP(j) + 1))
            && m.p - 1 <= m.cols && k <= m.rows * m.cols && (m.cols > m.p - 1 ==> k > m.rows * (m.cols - 1))
  {
    hide PrimitiveRoot;
    ShapeIsSound(k);
    TableBounds(12);
  }

  // ---- row exponents ----

  lemma EuclidStep(x: nat, y: nat, d: nat)
    requires y > 0 && d > 0
    ensures Divides(d, x) && Divides(d, y) <==> Divides(d, y) && Divides(d, x % y)
  {
    var q, r := x / y, x % y;
    assert x == y * q + r;
    if Divides(d, y) {
      DividesProduct(d, y, q);
      if Divides(d, r) { DividesSum(d, y * q, r); }
      if Divides(d, x) { DividesSum(d, x, y * q); }
    }
  }

  /** g is a common divisor that every common divisor divides. */
  ghost predicate IsGcd(g: nat, x: nat, y: nat) {
    && g > 0 && Divides(g, x) && Divides(g, y)
    && forall d {:trigger Divides(d, g)} :: d > 0 && Divides(d, x) && Divides(d, y) ==> Divides(d, g)
  }

  method Mcd(x0: nat, y0: nat) returns (g: nat)
    requires y0 > 0
    ensures IsGcd(g, x0, y0)
  {
    var x, y, r := x0, y0, 1;
    while r != 0
      invariant r != 0 ==> y > 0
      invariant r == 0 ==> y == 0 && x > 0
      invariant forall d {:trigger Divides(d, x0)} {:trigger Divides(d, x)} ::
          d > 0 ==> (Divides(d, x) && Divides(d, y) <==> Divides(d, x0) && Divides(d, y0))
      decreases y
    {
      forall d {:trigger Divides(d, x)} | d > 0
        ensures Divides(d, x) && Divides(d, y) <==> Divides(d, y) && Divides(d, x % y)
      {
        EuclidStep(x, y, d);
      }
      r := x % y;
      x := y;
      y := r;
    }
    g := x;
    assert Divides(g, x) && Divides(g, 0);
  }

  lemma NotUnit(p: nat)
    requires IsPrime(p)
    ensures !Divides(p, 1)
  {
    ModUnique(1, p, 0, 1);
  }

  lemma GcdIsOne(g: nat, x: nat, y: nat)
    requires IsGcd(g, x, y)
    ensures g == 1 <==> Coprime(x, y)
  {
    if g == 1 {
      forall p {:trigger IsPrime(p)} | IsPrime(p) && Divides(p, x)
        ensures !Divides(p, y)
      {
        NotUnit(p);
      }
    } else {
      var p := SmallestPrimeFactor(g);
      DividesTransitive(p, g, x);
      DividesTransitive(p, g, y);
    }
  }

  lemma OneModIsCoprime(n: nat, c: nat)
    requires n > 1 && c % n == 1
    ensures Coprime(c, n)
  {
    forall p {:trigger IsPrime(p)} | IsPrime(p) && Divides(p, c)
      ensures !Divides(p, n)
    {
      EuclidStep(c, n, p);
      NotUnit(p);
    }
  }

  function OneModAhead(n: nat, m: nat): (c: nat)
    requires n > 1
    ensures m < c <= m + n && c % n == 1
  {
    OneModLater(n, m);
    if m % n == 0 then m + 1 else m - m % n + n + 1
  }

  lemma OneModLater(n: nat, m: nat)
    requires n > 1
    ensures m % n == 0 ==> (m + 1) % n == 1
    ensures (m - m % n + n + 1) % n == 1
  {
    var q := m / n;
    assert m == n * q + m % n;
    if m % n == 0 { ModUnique(m + 1, n, q, 1); }
    assert n * (q + 1) == n * q + n;
    ModUnique(n * (q + 1) + 1, n, q + 1, 1);
  }

  ghost predicate SkipsNone(n: nat, m: nat, q: nat) {
    forall c {:trigger Coprime(c, n)} :: m < c < q ==> !Coprime(c, n)
  }

  /** The least number above m that is coprime to n. */
  ghost function NextCoprime(n: nat, m: nat): (q: nat)
    requires n > 1
    ensures m < q <= m + n && Coprime(q, n) && SkipsNone(n, m, q)
  {
    var c := OneModAhead(n, m);
    OneModIsCoprime(n, c);
    FirstCoprime(n, m, m + 1, c)
  }

  ghost function FirstCoprime(n: nat, m: nat, q: nat, c: nat): (f: nat)
    requires m < q <= c && Coprime(c, n) && SkipsNone(n, m, q)
    ensures q <= f <= c && Coprime(f, n) && SkipsNone(n, m, f)
    decreases c - q
  {
    if Coprime(q, n) then q else FirstCoprime(n, m, q + 1, c)
  }

  ghost function Tried(n: nat, i: nat): (q: nat)
    requires n > 1
    ensures q <= 6 + i * n
  {
    if i == 0 then 6 else NextCoprime(n, Tried(n, i - 1))
  }

  /** The exponents q: 1, then the numbers above 6 coprime to n in order. */
  ghost function Exponent(n: nat, i: nat): (q: nat)
    requires n > 1
    ensures Coprime(q, n)
  {
    if i == 0 then (OneModIsCoprime(n, n + 1); OneIsCoprime(n); 1) else Tried(n, i)
  }

  /** The exponents are 1, the least number above 6 coprime to n, and on from each the next such. */
  lemma ExponentsInOrder(n: nat, i: nat, c: nat)
    requires n > 1
    ensures Exponent(n, 0) == 1
    ensures Exponent(n, 1) > 6 && (6 < c < Exponent(n, 1) ==> !Coprime(c, n))
    ensures i > 0 ==>
              && Exponent(n, i + 1) > Exponent(n, i)
              && (Exponent(n, i) < c < Exponent(n, i + 1) ==> !Coprime(c, n))
  {
    hide Coprime;
    assert Tried(n, 0) == 6;
  }

  lemma OneIsCoprime(n: nat)
    requires n > 1
    ensures Coprime(1, n)
  {
    ModUnique(1, n, 0, 1);
    OneModIsCoprime(n, 1);
  }

  lemma OnlyTwo(p: nat)
    requires IsPrime(p) && Divides(p, 16)
    ensures p == 2
  {
    Euclid(p, 4, 4);
    Euclid(p, 2, 2);
    if p > 2 { ModUnique(2, p, 0, 2); }
  }

  lemma OddIsCoprime(c: nat)
    requires c % 2 == 1
    ensures Coprime(c, 16)
  {
    forall p {:trigger IsPrime(p)} | IsPrime(p) && Divides(p, c)
      ensures !Divides(p, 16)
    {
      if Divides(p, 16) { OnlyTwo(p); }
    }
  }

  /** The exponents are taken from all numbers above 6, not from the primes alone as TS 25.212 has it:
      for p = 17, used for blocks of 160 to 180 bits, the third one is 9. */
  lemma ThirdExponentOf17()
    ensures Exponent(16, 2) == 9 && Divides(3, 9)
  {
    OddIsCoprime(7);
    OddIsCoprime(9);
    assert Tried(16, 1) == 7;
    assert !Coprime(8, 16) by { SmallTwo(); assert Divides(2, 8) && Divides(2, 16); }
    assert Tried(16, 2) == 9;
  }

  lemma SmallTwo()
    ensures IsPrime(2)
  {
  }

  method Exponents(q: array<nat>, rows: nat, n: nat)
    requires n > 1 && 0 < rows <= q.Length
    modifies q
    ensures forall i :: 0 <= i < rows ==> q[i] == Exponent(n, i)
    ensures forall i :: rows <= i < q.Length ==> q[i] == old(q[i])
  {
    q[0] := 1;
    var prim := 6;
    var i := 1;
    while i < rows
      invariant 1 <= i <= rows && prim == Tried(n, i - 1)
      invariant forall a :: 0 <= a < i ==> q[a] == Exponent(n, a)
      invariant forall a :: rows <= a < q.Length ==> q[a] == old(q[a])
    {
      prim := Advance(n, prim);
      q[i] := prim;
      i := i + 1;
    }
  }

  /** Counts up until the greatest common divisor is one. */
  method Advance(n: nat, prim0: nat) returns (prim: nat)
    requires n > 1
    ensures prim == NextCoprime(n, prim0)
  {
    prim := prim0 + 1;
    var res := Mcd(prim, n);
    GcdIsOne(res, prim, n);
    while res != 1
      invariant prim0 < prim <= NextCoprime(n, prim0) && SkipsNone(n, prim0, prim)
      invariant res == 1 <==> Coprime(prim, n)
      decreases NextCoprime(n, prim0) - prim
    {
      prim := prim + 1;
      res := Mcd(prim, n);
      GcdIsOne(res, prim, n);
    }
  }

  // ---- rows ----

  function Of5(x: int, a: nat, b: nat, c: nat, d: nat, e: nat): nat {
    if x < 2 then if x < 1 then a else b else if x < 3 then c else if x < 4 then d else e
  }

  predicate FirstPattern(k: nat) {
    2281 <= k <= 2480 || 3161 <= k <= 3210
  }

  /** The row written at place i of the read-out. */
  function RowOrder(k: nat, i: nat): nat
    requires i < Rows(k)
  {
    if Rows(k) < 20 then Rows(k) - 1 - i
    else if i < 5 then Of5(i, 19, 9, 14, 4, 0)
    else if i < 10 then Of5(i - 5, 2, 5, 7, 12, 18)
    else if FirstPattern(k) then
      if i < 15 then Of5(i - 10, 16, 13, 17, 15, 3) else Of5(i - 15, 1, 6, 11, 8, 10)
    else
      if i < 15 then Of5(i - 10, 10, 8, 13, 17, 3) else Of5(i - 15, 1, 16, 6, 15, 11)
  }

  /** The place at which row x is read out. */
  function PlaceOfRow(k: nat, x: nat): (i: nat)
    requires x < Rows(k)
    ensures i < Rows(k)
  {
    if Rows(k) < 20 then Rows(k) - 1 - x
    else if x < 5 then Of5(x, 4, 15, 5, 14, 3)
    else if FirstPattern(k) then
      if x < 10 then Of5(x - 5, 6, 16, 7, 18, 1)
      else if x < 15 then Of5(x - 10, 19, 17, 8, 11, 2) else Of5(x - 15, 13, 10, 12, 9, 0)
    else
      if x < 10 then Of5(x - 5, 6, 17, 7, 11, 1)
      else if x < 15 then Of5(x - 10, 10, 19, 8, 12, 2) else Of5(x - 15, 18, 16, 13, 9, 0)
  }

  lemma RowOrderInverse(k: nat, i: nat)
    requires i < Rows(k)
    ensures RowOrder(k, i) < Rows(k) && PlaceOfRow(k, RowOrder(k, i)) == i
    ensures RowOrder(k, PlaceOfRow(k, i)) == i
  {
  }

  /** The rows of a small matrix are read from the last to the first, those of a large one in an order
      that the length decides. */
  lemma RowOrders(k: nat)
    ensures Rows(k) < 20 ==> forall i :: 0 <= i < Rows(k) ==> RowOrder(k, i) + i + 1 == Rows(k)
    ensures Rows(k) == 20 ==>
              seq(20, i requires 0 <= i < 20 => RowOrder(k, i)) ==
              [19, 9, 14, 4, 0, 2, 5, 7, 12, 18] + if 2281 <= k <= 2480 || 3161 <= k <= 3210
              then [16, 13, 17, 15, 3, 1, 6, 11, 8, 10] else [10, 8, 13, 17, 3, 1, 16, 6, 15, 11]
  {
  }

  /** The exponent r of row i: q is dealt to the rows in read-out order. */
  ghost function RowExponent(m: Shape, i: nat): (e: nat)
    requires Sound(m) && i < m.rows
    ensures Coprime(e, m.p - 1)
  {
    Exponent(m.p - 1, PlaceOfRow(m.k, i))
  }

  /** Multiplying the column number by an exponent coprime to p - 1 permutes the columns. */
  lemma StrideDistinct(n: nat, e: nat, a: nat, b: nat)
    requires n > 0 && Coprime(e, n) && a < b < n
    ensures (a * e) % n != (b * e) % n
  {
    if (a * e) % n == (b * e) % n {
      var x, y := (a * e) / n, (b * e) / n;
      assert (b - a) * e == n * (y - x);
      MultipleDivides(n, y - x);
      CancelCoprime(n, b - a, e);
      ModUnique(b - a, n, 0, b - a);
    }
  }

  /** Column j of a row with exponent e, before the last row's exchange. */
  ghost function Plain(m: Shape, e: nat, j: nat): (u: nat)
    requires Sound(m) && j < m.cols
  {
    if j < m.p - 1 then
      var s := Power(m.v, m.p, (j * e) % (m.p - 1));
      if m.cols == m.p - 1 then s - 1 else s
    else if j == m.p - 1 then 0 else m.p
  }

  lemma PlainBound(m: Shape, e: nat, j: nat)
    requires Sound(m) && j < m.cols
    ensures Plain(m, e, j) < m.cols
  {
  }

  lemma PlainDistinct(m: Shape, e: nat, a: nat, b: nat)
    requires Sound(m) && a < b < m.cols && Coprime(e, m.p - 1)
    ensures Plain(m, e, a) != Plain(m, e, b)
  {
    hide Power, Coprime;
    if b < m.p - 1 { StrideDistinct(m.p - 1, e, a, b); }
  }

  /** A full matrix with p + 1 columns exchanges the first and the last entry of its last row. */
  function Exchanged(m: Shape, i: nat, j: nat): (j': nat)
    requires j < m.cols
    ensures j' < m.cols
  {
    if m.cols == m.p + 1 && m.k == m.cols * m.rows && i == m.rows - 1 then
      if j == 0 then m.p else if j == m.p then 0 else j
    else j
  }

  ghost function Cell(m: Shape, i: nat, j: nat): (u: nat)
    requires Sound(m) && i < m.rows && j < m.cols
    ensures u < m.cols
  {
    PlainBound(m, RowExponent(m, i), Exchanged(m, i, j));
    Plain(m, RowExponent(m, i), Exchanged(m, i, j))
  }

  /** The row that is read i-th has the i-th exponent. */
  lemma RowExponentIs(m: Shape, i: nat)
    requires Sound(m) && i < m.rows
    ensures RowOrder(m.k, i) < m.rows && RowExponent(m, RowOrder(m.k, i)) == Exponent(m.p - 1, i)
  {
    hide RowOrder, PlaceOfRow, Exponent, PrimitiveRoot;
    RowOrderInverse(m.k, i);
  }

  /** The entries of row i: the power of the root that the column number times the exponent says, less
      one if there are p - 1 columns, then 0 and p; a full matrix with p + 1 columns has p in front of its
      last row and 1 behind. */
  lemma Entries(m: Shape, i: nat, j: nat)
    requires Sound(m) && i < m.rows && j < m.cols
    ensures var full := m.k == (m.p + 1) * m.rows && m.cols == m.p + 1 && i == m.rows - 1;
            && (j < m.p - 1 && !(full && j == 0) ==>
                 Cell(m, i, j) + (if m.cols == m.p - 1 then 1 else 0) ==
                 Power(m.v, m.p, (j * RowExponent(m, i)) % (m.p - 1)))
            && (j == m.p - 1 ==> Cell(m, i, j) == 0)
            && (j == m.p && !full ==> Cell(m, i, j) == m.p)
            && (full && j == 0 ==> Cell(m, i, j) == m.p)
            && (full && j == m.p ==> Cell(m, i, j) == 1)
  {
    hide RowExponent, PrimitiveRoot;
    MulZero(RowExponent(m, i));
    ModUnique(0, m.p - 1, 0, 0);
  }

  lemma CellDistinct(m: Shape, i: nat, a: nat, b: nat)
    requires Sound(m) && i < m.rows && a < b < m.cols
    ensures Cell(m, i, a) != Cell(m, i, b)
  {
    hide Plain, Sound;
    var x, y := Exchanged(m, i, a), Exchanged(m, i, b);
    if x < y { PlainDistinct(m, RowExponent(m, i), x, y); } else { PlainDistinct(m, RowExponent(m, i), y, x); }
  }

  // ---- read-out ----

  lemma InMatrix(rows: nat, cols: nat, x: nat)
    requires rows > 0 && x < rows * cols
    ensures x % rows < rows && x / rows < cols && x == rows * (x / rows) + x % rows
  {
    var j := x / rows;
    assert x == rows * j + x % rows;
    if j >= cols { MulOrder(rows, cols, j); }
  }

  lemma OfMatrix(rows: nat, cols: nat, t: nat, u: nat)
    requires t < rows && u < cols
    ensures 0 <= t * cols + u < rows * cols
    ensures (t * cols + u) / cols == t && (t * cols + u) % cols == u
  {
    MulOrder(cols, t, rows);
    MulNonNegative(t, cols);
    ModUnique(t * cols + u, cols, t, u);
  }

  ghost predicate At(m: Shape, x: nat, i: nat, j: nat) {
    && Sound(m) && i < m.rows == Rows(m.k) && j < m.cols && RowOrder(m.k, i) < m.rows
    && i == x % m.rows && j == x / m.rows
  }

  lemma AtPlace(m: Shape, x: nat)
    requires Sound(m) && x < m.rows * m.cols
    ensures At(m, x, x % m.rows, x / m.rows)
  {
    hide RowOrder, PlaceOfRow;
    InMatrix(m.rows, m.cols, x);
    RowOrderInverse(m.k, x % m.rows);
  }

  /** The x-th position read, column by column. */
  ghost function Read(m: Shape, x: nat): (y: nat)
    requires Sound(m) && x < m.rows * m.cols
    ensures y < m.rows * m.cols
  {
    var i, j := x % m.rows, x / m.rows;
    AtPlace(m, x);
    OfMatrix(m.rows, m.cols, RowOrder(m.k, i), Cell(m, i, j));
    RowOrder(m.k, i) * m.cols + Cell(m, i, j)
  }

  lemma ReadAt(m: Shape, x: nat, i: nat, j: nat)
    requires Sound(m) && x < m.rows * m.cols && At(m, x, i, j)
    ensures Read(m, x) / m.cols == RowOrder(m.k, i) && Read(m, x) % m.cols == Cell(m, i, j)
  {
    hide Cell, RowOrder;
    OfMatrix(m.rows, m.cols, RowOrder(m.k, i), Cell(m, i, j));
  }

  lemma ReadDistinct(m: Shape, x: nat, y: nat)
    requires Sound(m) && x < y < m.rows * m.cols
    ensures Read(m, x) != Read(m, y)
  {
    hide Read, Cell, RowOrder, PlaceOfRow;
    var i, j, i', j' := x % m.rows, x / m.rows, y % m.rows, y / m.rows;
    AtPlace(m, x);
    AtPlace(m, y);
    if Read(m, x) == Read(m, y) {
      ReadAt(m, x, i, j);
      ReadAt(m, y, i', j');
      RowOrderInverse(m.k, i);
      RowOrderInverse(m.k, i');
      InMatrix(m.rows, m.cols, x);
      InMatrix(m.rows, m.cols, y);
      if j < j' { CellDistinct(m, i, j, j'); } else if j' < j { CellDistinct(m, i, j', j); }
    }
  }

  ghost function ReadAll(m: Shape): (all: seq<nat>)
    requires Sound(m)
    ensures |all| == m.rows * m.cols
  {
    seq<nat>(m.rows * m.cols, x requires 0 <= x < m.rows * m.cols => Read(m, x))
  }

  lemma ReadAllIsPermutation(m: Shape)
    requires Sound(m)
    ensures IsPermutation(ReadAll(m))
  {
    hide Sound, Read;
    var all := ReadAll(m);
    forall x, y | 0 <= x < y < |all|
      ensures all[x] != all[y]
    {
      ReadDistinct(m, x, y);
    }
  }

  // ---- pruning ----

  /** The entries below the limit, in order. */
  function Pruned(f: seq<nat>, limit: nat): (g: seq<nat>)
    ensures |g| <= |f|
    ensures forall y :: y in g <==> y in f && y < limit
  {
    if f == [] then []
    else
      var init, last := f[..|f| - 1], f[|f| - 1];
      assert f == init + [last];
      if last < limit then Pruned(init, limit) + [last] else Pruned(init, limit)
  }

  lemma PrunedStep(f: seq<nat>, limit: nat, x: nat)
    requires x < |f|
    ensures Pruned(f[..x + 1], limit) == Pruned(f[..x], limit) + if f[x] < limit then [f[x]] else []
  {
    assert f[..x + 1][..x] == f[..x];
  }

  lemma {:induction false} PrunedDistinct(f: seq<nat>, limit: nat)
    requires Distinct(f)
    ensures Distinct(Pruned(f, limit))
  {
    if f != [] {
      var init, last := f[..|f| - 1], f[|f| - 1];
      PrunedDistinct(init, limit);
      assert last !in init;
      assert last !in Pruned(init, limit);
    }
  }

  lemma PrunedElements(f: seq<nat>, limit: nat)
    requires IsPermutation(f) && limit <= |f|
    ensures Elements(Pruned(f, limit)) == Below(limit)
  {
    hide Pruned, IsPermutation;
    forall y | 0 <= y < limit
      ensures y in Pruned(f, limit)
    {
      PermutationHits(f, y);
    }
  }

  /** Pruning a permutation leaves a permutation of exactly the numbers below the limit. */
  lemma PrunedPermutation(f: seq<nat>, limit: nat)
    requires IsPermutation(f) && limit <= |f|
    ensures |Pruned(f, limit)| == limit && IsPermutation(Pruned(f, limit))
  {
    hide Pruned, Elements;
    var g := Pruned(f, limit);
    assert Distinct(f);
    PrunedDistinct(f, limit);
    PrunedElements(f, limit);
    DistinctCardinality(g);
    assert forall i :: 0 <= i < |g| ==> g[i] in g;
  }

  lemma {:induction false} PrunedPrefix(f: seq<nat>, limit: nat, x: nat)
    requires x <= |f|
    ensures |Pruned(f[..x], limit)| <= |Pruned(f, limit)|
    decreases |f| - x
  {
    if x == |f| {
      assert f[..x] == f;
    } else {
      PrunedStep(f, limit, x);
      PrunedPrefix(f, limit, x + 1);
    }
  }

  /** The interleaver of block length k. */
  ghost function UmtsTable(k: nat): (t: seq<nat>)
    requires k <= MAX_CELLS
  {
    ShapeIsSound(k);
    Pruned(ReadAll(ShapeOf(k)), k)
  }

  lemma UmtsTableIsPermutation(k: nat)
    requires k <= MAX_CELLS
    ensures |UmtsTable(k)| == k && IsPermutation(UmtsTable(k))
  {
    hide ReadAll, Pruned, Sound, ShapeOf;
    ShapeIsSound(k);
    ShapeKeepsLength(k);
    ReadAllIsPermutation(ShapeOf(k));
    PrunedPermutation(ReadAll(ShapeOf(k)), k);
  }

  lemma ShapeKeepsLength(k: nat)
    requires k <= MAX_CELLS
    ensures ShapeOf(k).k == k <= ShapeOf(k).rows * ShapeOf(k).cols
  {
    hide PrimitiveRoot;
    ShapeIsSound(k);
  }

  // ---- the generator ----

  /** The prime search: the first tabulated prime whose matrix holds the block. */
  method FindPrime(longCb: nat, rows: nat) returns (p: nat, v: nat)
    requires longCb <= MAX_CELLS && rows == Rows(longCb)
    ensures p == TableP(PrimeIndex(longCb)) && v == TableV(PrimeIndex(longCb))
  {
    hide TableP, TableV;
    TableBounds(12);
    if 481 <= longCb <= 530 { return 53, 2; }
    TableBounds(51);
    var i := 1;
    p, v := TableP(0), TableV(0);
    while longCb > rows * (p + 1)
      invariant 1 <= i <= NOF_PRIMES && p == TableP(i - 1) && v == TableV(i - 1)
      invariant FirstFit(longCb, rows, i - 1) == PrimeIndex(longCb)
      decreases NOF_PRIMES - i
    {
      p, v := TableP(i), TableV(i);
      i := i + 1;
    }
  }

  method FindShape(longCb: nat) returns (m: Shape)
    requires longCb <= MAX_CELLS
    ensures m == ShapeOf(longCb)
  {
    hide TableP, TableV, PrimeIndex;
    var rows := if 40 <= longCb <= 159 then 5
      else if (160 <= longCb <= 200) || (481 <= longCb <= 530) then 10 else 20;
    var p, v := FindPrime(longCb, rows);
    TableBounds(PrimeIndex(longCb));
    var cols := p + 1;
    if longCb <= rows * (p - 1) {
      cols := p - 1;
    } else if rows * (p - 1) < longCb <= rows * p {
      cols := p;
    }
    m := Shape(longCb, rows, cols, p, v);
  }

  method Powers(s: array<nat>, p: nat, v: nat)
    requires 2 < p <= s.Length + 1
    modifies s
    ensures forall i :: 0 <= i < p - 1 ==> s[i] == Power(v, p, i)
  {
    s[0] := 1;
    var i := 1;
    while i < p - 1
      invariant 1 <= i <= p - 1
      invariant forall a :: 0 <= a < i ==> s[a] == Power(v, p, a)
    {
      s[i] := (v * s[i - 1]) % p;
      i := i + 1;
    }
  }

  method Five(t: array<nat>, at: nat, a: nat, b: nat, c: nat, d: nat, e: nat)
    requires at + 5 <= t.Length
    modifies t
    ensures forall i :: at <= i < at + 5 ==> t[i] == Of5(i - at, a, b, c, d, e)
    ensures forall i :: 0 <= i < t.Length && !(at <= i < at + 5) ==> t[i] == old(t[i])
  {
    t[at] := a;
    t[at + 1] := b;
    t[at + 2] := c;
    t[at + 3] := d;
    t[at + 4] := e;
  }

  method RowPattern(t: array<nat>, longCb: nat)
    requires t.Length == MAX_ROWS
    modifies t
    ensures forall i :: 0 <= i < Rows(longCb) ==> t[i] == RowOrder(longCb, i)
  {
    if 40 <= longCb <= 159 {
      Five(t, 0, 4, 3, 2, 1, 0);
    } else if (160 <= longCb <= 200) || (481 <= longCb <= 530) {
      Five(t, 0, 9, 8, 7, 6, 5);
      Five(t, 5, 4, 3, 2, 1, 0);
    } else {
      Five(t, 0, 19, 9, 14, 4, 0);
      Five(t, 5, 2, 5, 7, 12, 18);
      if (2281 <= longCb <= 2480) || (3161 <= longCb <= 3210) {
        Five(t, 10, 16, 13, 17, 15, 3);
        Five(t, 15, 1, 6, 11, 8, 10);
      } else {
        Five(t, 10, 10, 8, 13, 17, 3);
        Five(t, 15, 1, 16, 6, 15, 11);
      }
    }
  }

  /** Deals the exponents q to the rows in read-out order. */
  method DealExponents(r: array<nat>, q: array<nat>, t: array<nat>, m: Shape)
    requires Sound(m) && r.Length == q.Length == t.Length == MAX_ROWS && r != q && r != t
    requires forall i :: 0 <= i < m.rows ==> q[i] == Exponent(m.p - 1, i) && t[i] == RowOrder(m.k, i)
    modifies r
    ensures forall i :: 0 <= i < m.rows ==> r[i] == RowExponent(m, i)
  {
    hide PrimitiveRoot;
    var i := 0;
    while i < m.rows
      invariant i <= m.rows
      invariant forall x :: 0 <= x < m.rows && PlaceOfRow(m.k, x) < i ==> r[x] == RowExponent(m, x)
    {
      Deal(r, q[i], t[i], i, m);
      i := i + 1;
    }
  }

  method Deal(r: array<nat>, e: nat, x: nat, i: nat, m: Shape)
    requires Sound(m) && i < m.rows <= r.Length && e == Exponent(m.p - 1, i) && x == RowOrder(m.k, i)
    requires forall y :: 0 <= y < m.rows && PlaceOfRow(m.k, y) < i ==> r[y] == RowExponent(m, y)
    modifies r
    ensures forall y :: 0 <= y < m.rows && PlaceOfRow(m.k, y) < i + 1 ==> r[y] == RowExponent(m, y)
  {
    hide PrimitiveRoot, RowOrder, PlaceOfRow;
    RowOrderInverse(m.k, i);
    forall y | 0 <= y < m.rows && PlaceOfRow(m.k, y) == i
      ensures y == x
    {
      RowOrderInverse(m.k, y);
    }
    r[x] := e;
  }

  // The first n columns of row i are done.
  ghost predicate RowDone(m: Shape, u: seq<nat>, i: nat, n: nat) {
    && Sound(m) && i < m.rows && n <= m.cols && i * m.cols + n <= |u|
    && forall x :: i * m.cols <= x < i * m.cols + n ==> u[x] == Plain(m, RowExponent(m, i), x - i * m.cols)
  }

  ghost predicate RowsDone(m: Shape, u: seq<nat>, lo: nat, hi: nat, n: nat) {
    forall i {:trigger RowDone(m, u, i, n)} :: lo <= i < hi ==> RowDone(m, u, i, n)
  }

  lemma RowKept(m: Shape, u: seq<nat>, u': seq<nat>, i: nat, a: nat, n: nat)
    requires Sound(m) && RowDone(m, u, i, n) && |u'| == |u| && i != a && a < m.rows
    requires forall x :: 0 <= x < |u| && !(a * m.cols <= x < a * m.cols + m.cols) ==> u'[x] == u[x]
    ensures RowDone(m, u', i, n)
  {
    hide Plain, RowExponent;
    MulOrder(m.cols, i, a);
    MulOrder(m.cols, a, i);
  }

  lemma RowsKept(m: Shape, u: seq<nat>, u': seq<nat>, a: nat, lo: nat, hi: nat, n: nat)
    requires Sound(m) && RowsDone(m, u, lo, hi, n) && |u'| == |u| && !(lo <= a < hi) && a < m.rows
    requires forall x :: 0 <= x < |u| && !(a * m.cols <= x < a * m.cols + m.cols) ==> u'[x] == u[x]
    ensures RowsDone(m, u', lo, hi, n)
  {
    hide RowDone, Sound;
    forall i | lo <= i < hi
      ensures RowDone(m, u', i, n)
    {
      RowKept(m, u, u', i, a, n);
    }
  }

  lemma RowFits(m: Shape, i: nat)
    requires Sound(m) && i < m.rows
    ensures 0 <= i * m.cols && i * m.cols + m.cols <= m.rows * m.cols <= MAX_CELLS
    ensures (i + 1) * m.cols == i * m.cols + m.cols && m.cols > 0
  {
    hide PrimitiveRoot;
    MulOrder(m.cols, i, m.rows);
    MulNonNegative(i, m.cols);
  }

  method FillRow(u: array<nat>, s: array<nat>, e: nat, i: nat, m: Shape)
    requires Sound(m) && i < m.rows && e == RowExponent(m, i) && u.Length == MAX_CELLS && s.Length == MAX_COLS && u != s
    requires forall a :: 0 <= a < m.p - 1 ==> s[a] == Power(m.v, m.p, a)
    modifies u
    ensures RowDone(m, u[..], i, m.p - 1)
    ensures forall x :: 0 <= x < u.Length && !(i * m.cols <= x < i * m.cols + m.cols) ==> u[x] == old(u[x])
  {
    hide RowExponent, Power;
    RowFits(m, i);
    var j := 0;
    while j < m.p - 1
      invariant j <= m.p - 1
      invariant forall a :: 0 <= a < m.p - 1 ==> s[a] == Power(m.v, m.p, a)
      invariant forall x :: i * m.cols <= x < i * m.cols + j ==> u[x] == Plain(m, e, x - i * m.cols)
      invariant forall x :: 0 <= x < u.Length && !(i * m.cols <= x < i * m.cols + m.cols) ==> u[x] == old(u[x])
    {
      MulNonNegative(j, e);
      u[i * m.cols + j] := s[(j * e) % (m.p - 1)];
      if m.cols == m.p - 1 {
        assert u[i * m.cols + j] > 0;
        u[i * m.cols + j] := u[i * m.cols + j] - 1;
      }
      j := j + 1;
    }
  }

  method FillRows(u: array<nat>, s: array<nat>, r: array<nat>, m: Shape)
    requires Sound(m) && u.Length == MAX_CELLS && s.Length == MAX_COLS && r.Length == MAX_ROWS && u != s && u != r
    requires forall a :: 0 <= a < m.p - 1 ==> s[a] == Power(m.v, m.p, a)
    requires forall a :: 0 <= a < m.rows ==> r[a] == RowExponent(m, a)
    modifies u
    ensures RowsDone(m, u[..], 0, m.rows, m.p - 1)
  {
    hide RowExponent, Power, RowDone, PrimitiveRoot;
    var i := 0;
    while i < m.rows
      invariant i <= m.rows && RowsDone(m, u[..], 0, i, m.p - 1)
      invariant forall a :: 0 <= a < m.p - 1 ==> s[a] == Power(m.v, m.p, a)
      invariant forall a :: 0 <= a < m.rows ==> r[a] == RowExponent(m, a)
    {
      ghost var before := u[..];
      FillRow(u, s, r[i], i, m);
      RowsKept(m, before, u[..], i, 0, i, m.p - 1);
      i := i + 1;
    }
  }

  /** The entries 0 and p behind the powers, where there is room for them. */
  method EndRow(u: array<nat>, i: nat, m: Shape)
    requires Sound(m) && i < m.rows && u.Length == MAX_CELLS && m.cols >= m.p && RowDone(m, u[..], i, m.p - 1)
    modifies u
    ensures RowDone(m, u[..], i, m.cols)
    ensures forall x :: 0 <= x < u.Length && !(i * m.cols <= x < i * m.cols + m.cols) ==> u[x] == old(u[x])
  {
    hide RowExponent, PrimitiveRoot, Power;
    RowFits(m, i);
    ghost var before := u[..];
    u[i * m.cols + m.p - 1] := 0;
    if m.cols == m.p + 1 { u[i * m.cols + m.p] := m.p; }
    forall x | i * m.cols <= x < i * m.cols + m.cols
      ensures u[x] == Plain(m, RowExponent(m, i), x - i * m.cols)
    {
      if x < i * m.cols + m.p - 1 { assert u[x] == before[x]; }
    }
  }

  method EndRows(u: array<nat>, m: Shape)
    requires Sound(m) && u.Length == MAX_CELLS && m.cols >= m.p && RowsDone(m, u[..], 0, m.rows, m.p - 1)
    modifies u
    ensures RowsDone(m, u[..], 0, m.rows, m.cols)
  {
    hide RowDone, PrimitiveRoot;
    var i := 0;
    while i < m.rows
      invariant i <= m.rows && RowsDone(m, u[..], 0, i, m.cols) && RowsDone(m, u[..], i, m.rows, m.p - 1)
    {
      ghost var before := u[..];
      EndRow(u, i, m);
      RowsKept(m, before, u[..], i, 0, i, m.cols);
      RowsKept(m, before, u[..], i, i + 1, m.rows, m.p - 1);
      i := i + 1;
    }
  }

  ghost predicate RowReady(m: Shape, u: seq<nat>, i: nat) {
    && Sound(m) && i < m.rows && i * m.cols + m.cols <= |u|
    && forall x :: i * m.cols <= x < i * m.cols + m.cols ==> u[x] == Cell(m, i, x - i * m.cols)
  }

  lemma UnexchangedRow(m: Shape, u: seq<nat>, i: nat)
    requires RowDone(m, u, i, m.cols) && forall j :: 0 <= j < m.cols ==> Exchanged(m, i, j) == j
    ensures RowReady(m, u, i)
  {
    hide RowExponent, PrimitiveRoot, Exchanged, Plain;
  }

  lemma ExchangedRow(m: Shape, u: seq<nat>, u': seq<nat>, i: nat)
    requires RowDone(m, u, i, m.cols) && m.cols == m.p + 1 && m.k == m.cols * m.rows && i == m.rows - 1
    requires |u'| == |u| && u'[i * m.cols] == u[i * m.cols + m.p] && u'[i * m.cols + m.p] == u[i * m.cols]
    requires forall x :: i * m.cols < x < i * m.cols + m.p ==> u'[x] == u[x]
    ensures RowReady(m, u', i)
  {
    hide RowExponent, PrimitiveRoot, Plain;
  }

  method FillMatrix(u: array<nat>, s: array<nat>, r: array<nat>, m: Shape)
    requires Sound(m) && u.Length == MAX_CELLS && s.Length == MAX_COLS && r.Length == MAX_ROWS && u != s && u != r
    requires forall a :: 0 <= a < m.p - 1 ==> s[a] == Power(m.v, m.p, a)
    requires forall a :: 0 <= a < m.rows ==> r[a] == RowExponent(m, a)
    modifies u
    ensures forall i {:trigger RowReady(m, u[..], i)} :: 0 <= i < m.rows ==> RowReady(m, u[..], i)
  {
    hide RowDone, PrimitiveRoot, RowReady, RowExponent, Power;
    FillRows(u, s, r, m);
    if m.cols >= m.p { EndRows(u, m); }
    ghost var before := u[..];
    forall i | 0 <= i < m.rows && !(m.cols == m.p + 1 && m.k == m.cols * m.rows && i == m.rows - 1)
      ensures RowReady(m, u[..], i)
    {
      UnexchangedRow(m, u[..], i);
    }
    if m.cols == m.p + 1 && m.k == m.cols * m.rows {
      RowFits(m, m.rows - 1);
      var aux := u[(m.rows - 1) * m.cols + m.p];
      u[(m.rows - 1) * m.cols + m.p] := u[(m.rows - 1) * m.cols + 0];
      u[(m.rows - 1) * m.cols + 0] := aux;
      ExchangedRow(m, before, u[..], m.rows - 1);
      forall i | 0 <= i < m.rows - 1
        ensures RowReady(m, u[..], i)
      {
        ReadyKept(m, before, u[..], i);
      }
    }
  }

  lemma ReadyKept(m: Shape, u: seq<nat>, u': seq<nat>, i: nat)
    requires RowReady(m, u, i) && |u'| == |u| && i < m.rows - 1
    requires forall x :: 0 <= x < (m.rows - 1) * m.cols && x < |u| ==> u'[x] == u[x]
    ensures RowReady(m, u', i)
  {
    hide Cell, Sound;
    RowFits(m, i);
    MulOrder(m.cols, i, m.rows - 1);
    assert i * m.cols + m.cols <= (m.rows - 1) * m.cols;
  }

  ghost predicate Written(forward: seq<nat>, reverse: seq<nat>, g: seq<nat>) {
    && |g| <= |forward| && forward[..|g|] == g
    && forall k :: 0 <= k < |g| ==> g[k] < |reverse| && reverse[g[k]] == k
  }

  lemma WrittenStep(f: seq<nat>, f': seq<nat>, r: seq<nat>, r': seq<nat>, g: seq<nat>, y: nat)
    requires Written(f, r, g) && |g| < |f| && y < |r| && y !in g
    requires f' == f[|g| := y] && r' == r[y := |g|]
    ensures Written(f', r', g + [y])
  {
  }

  /** Room for one more entry below the limit, which has not been read before. */
  lemma RoomForNext(m: Shape, x: nat)
    requires Sound(m) && x < m.rows * m.cols && Read(m, x) < m.k
    ensures |Pruned(ReadAll(m)[..x], m.k)| < m.k && Read(m, x) !in Pruned(ReadAll(m)[..x], m.k)
  {
    hide Read, Sound, Pruned;
    var all := ReadAll(m);
    ReadAllIsPermutation(m);
    LimitFits(m);
    PrunedPermutation(all, m.k);
    PrunedStep(all, m.k, x);
    PrunedPrefix(all, m.k, x + 1);
    assert all[x] == Read(m, x);
    assert all[x] !in all[..x];
  }

  lemma LimitFits(m: Shape)
    requires Sound(m)
    ensures m.k <= |ReadAll(m)|
  {
    hide PrimitiveRoot, Read;
  }

  lemma ReadIs(m: Shape, u: seq<nat>, i: nat, j: nat)
    requires Sound(m) && i < m.rows && j < m.cols && RowReady(m, u, i)
    ensures var x := j * m.rows + i;
            && 0 <= i * m.cols + j < |u| && 0 <= x < m.rows * m.cols && i < Rows(m.k)
            && RowOrder(m.k, i) * m.cols + u[i * m.cols + j] == Read(m, x)
  {
    hide Cell, PrimitiveRoot, RowOrder;
    MulNonNegative(i, m.cols);
    OfMatrix(m.cols, m.rows, j, i);
    assert u[i * m.cols + j] == Cell(m, i, j);
  }

  method ReadColumn(forward: array<nat>, reverse: array<nat>, u: array<nat>, t: array<nat>, m: Shape, j: nat, k0: nat)
    returns (k: nat)
    requires Sound(m) && j < m.cols && m.k <= forward.Length && m.k <= reverse.Length
    requires forward != reverse && u !in {forward, reverse} && t !in {forward, reverse}
    requires u.Length == MAX_CELLS && t.Length == MAX_ROWS
    requires forall i :: 0 <= i < m.rows ==> t[i] == RowOrder(m.k, i)
    requires forall i {:trigger RowReady(m, u[..], i)} :: 0 <= i < m.rows ==> RowReady(m, u[..], i)
    requires j * m.rows <= |ReadAll(m)| && k0 == |Pruned(ReadAll(m)[..j * m.rows], m.k)|
    requires Written(forward[..], reverse[..], Pruned(ReadAll(m)[..j * m.rows], m.k))
    modifies forward, reverse
    ensures (j + 1) * m.rows <= |ReadAll(m)| && k == |Pruned(ReadAll(m)[..(j + 1) * m.rows], m.k)|
    ensures Written(forward[..], reverse[..], Pruned(ReadAll(m)[..(j + 1) * m.rows], m.k))
    ensures forall i :: m.k <= i < forward.Length ==> forward[i] == old(forward[i])
  {
    hide RowReady, PrimitiveRoot, Written, Pruned, ReadAll, RowOrder;
    k := k0;
    var i := 0;
    ghost var x := j * m.rows;
    OfMatrix(m.cols, m.rows, j, 0);
    MulOrder(m.rows, j, m.cols);
    while i < m.rows
      invariant i <= m.rows && x == j * m.rows + i <= |ReadAll(m)|
      invariant k == |Pruned(ReadAll(m)[..x], m.k)| && Written(forward[..], reverse[..], Pruned(ReadAll(m)[..x], m.k))
      invariant forall i :: m.k <= i < forward.Length ==> forward[i] == old(forward[i])
    {
      k := ReadOne(forward, reverse, u, t[i], m, j, i, k, x);
      i := i + 1;
      x := x + 1;
    }
  }

  method ReadOne(forward: array<nat>, reverse: array<nat>, u: array<nat>, row: nat, m: Shape, j: nat, i: nat, k0: nat,
                 ghost x: nat) returns (k: nat)
    requires Sound(m) && j < m.cols && i < m.rows == Rows(m.k) && m.k <= forward.Length && m.k <= reverse.Length
    requires forward != reverse && u !in {forward, reverse} && u.Length == MAX_CELLS
    requires row == RowOrder(m.k, i) && RowReady(m, u[..], i)
    requires x == j * m.rows + i <= |ReadAll(m)| && k0 == |Pruned(ReadAll(m)[..x], m.k)|
    requires Written(forward[..], reverse[..], Pruned(ReadAll(m)[..x], m.k))
    modifies forward, reverse
    ensures x + 1 <= |ReadAll(m)| && k == |Pruned(ReadAll(m)[..x + 1], m.k)|
    ensures Written(forward[..], reverse[..], Pruned(ReadAll(m)[..x + 1], m.k))
    ensures forall i :: m.k <= i < forward.Length ==> forward[i] == old(forward[i])
  {
    hide RowReady, PrimitiveRoot, Written, Pruned, Read, RowOrder, Sound;
    k := k0;
    ReadIs(m, u[..], i, j);
    var kp := row * m.cols + u[i * m.cols + j];
    assert kp == Read(m, x) == ReadAll(m)[x];
    PrunedStep(ReadAll(m), m.k, x);
    assert Pruned(ReadAll(m)[..x], m.k) + [] == Pruned(ReadAll(m)[..x], m.k);
    if kp < m.k {
      RoomForNext(m, x);
      ghost var f, r, g := forward[..], reverse[..], Pruned(ReadAll(m)[..x], m.k);
      reverse[kp] := k;
      forward[k] := kp;
      k := k + 1;
      WrittenStep(f, forward[..], r, reverse[..], g, kp);
    }
  }

  method ReadOut(h: Interleaver, u: array<nat>, t: array<nat>, m: Shape)
    requires Sound(m) && h.Valid() && m.k <= h.maxLongCb
    requires u !in {h.forward, h.reverse} && t !in {h.forward, h.reverse}
    requires u.Length == MAX_CELLS && t.Length == MAX_ROWS
    requires forall i :: 0 <= i < m.rows ==> t[i] == RowOrder(m.k, i)
    requires forall i {:trigger RowReady(m, u[..], i)} :: 0 <= i < m.rows ==> RowReady(m, u[..], i)
    modifies h.forward, h.reverse
    ensures Written(h.forward[..], h.reverse[..], Pruned(ReadAll(m), m.k))
    ensures forall i :: m.k <= i < h.maxLongCb ==> h.forward[i] == old(h.forward[i])
  {
    hide RowReady, PrimitiveRoot, Read, RowOrder;
    var k, j := 0, 0;
    while j < m.cols
      invariant j <= m.cols && j * m.rows <= |ReadAll(m)| && k == |Pruned(ReadAll(m)[..j * m.rows], m.k)|
      invariant Written(h.forward[..], h.reverse[..], Pruned(ReadAll(m)[..j * m.rows], m.k))
      invariant forall i :: m.k <= i < h.maxLongCb ==> h.forward[i] == old(h.forward[i])
    {
      k := ReadColumn(h.forward, h.reverse, u, t, m, j, k);
      j := j + 1;
    }
    assert ReadAll(m)[..m.cols * m.rows] == ReadAll(m);
  }

  /** Fills both tables of the handle for a block of longCb bits. */
  method UmtsGen(h: Interleaver, longCb: nat) returns (ret: int)
    requires h.Valid() && (longCb <= h.maxLongCb ==> longCb <= MAX_CELLS)
    modifies h.forward, h.reverse
    ensures ret == if longCb > h.maxLongCb then -1 else 0
    ensures ret != 0 ==> h.forward[..] == old(h.forward[..]) && h.reverse[..] == old(h.reverse[..])
    ensures ret == 0 ==>
              && h.forward[..longCb] == UmtsTable(longCb)
              && MutuallyInverse(h.forward[..longCb], h.reverse[..longCb])
  {
    hide Sound, ReadAll, Pruned, RowReady, ShapeOf, PrimitiveRoot;
    if longCb > h.maxLongCb { return -1; }
    var m := FindShape(longCb);
    ShapeIsSound(longCb);
    ShapeKeepsLength(longCb);
    var t := new nat[MAX_ROWS];
    var u := new nat[MAX_CELLS];
    Prepare(u, t, m);
    ReadOut(h, u, t, m);
    UmtsTableIsPermutation(longCb);
    TablesInvert(h.forward[..], h.reverse[..], UmtsTable(longCb));
    return 0;
  }

  lemma TablesInvert(forward: seq<nat>, reverse: seq<nat>, g: seq<nat>)
    requires Written(forward, reverse, g) && IsPermutation(g) && |g| <= |reverse|
    ensures forward[..|g|] == g && MutuallyInverse(forward[..|g|], reverse[..|g|])
  {
    ScanInverts(g, reverse[..|g|]);
  }

  method Prepare(u: array<nat>, t: array<nat>, m: Shape)
    requires Sound(m) && u != t && u.Length == MAX_CELLS && t.Length == MAX_ROWS
    modifies u, t
    ensures forall i :: 0 <= i < m.rows ==> t[i] == RowOrder(m.k, i)
    ensures forall i {:trigger RowReady(m, u[..], i)} :: 0 <= i < m.rows ==> RowReady(m, u[..], i)
  {
    hide RowReady, RowOrder, RowExponent, Power, PrimitiveRoot;
    var s := new nat[MAX_COLS];
    var q, r := new nat[MAX_ROWS], new nat[MAX_ROWS];
    Exponents(q, m.rows, m.p - 1);
    Powers(s, m.p, m.v);
    RowPattern(t, m.k);
    DealExponents(r, q, t, m);
    FillMatrix(u, s, r, m);
  }
}
