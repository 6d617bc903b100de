/** Turbo code block sizes (srslte/lib/fec/cbsegm.c, table 5.1.3-3 of TS 36.212). */
module CodeBlockSizes {

  const NOF_TC_CB_SIZES := 188
  const MAX_LEN_CB := 6144
  const ERROR := -1

  /** The k-th of eight table entries. */
  function Of8(k: int, a: nat, b: nat, c: nat, d: nat, e: nat, f: nat, g: nat, h: nat): nat {
    if k < 4 then if k < 2 then if k < 1 then a else b else if k < 3 then c else d
    else if k < 6 then if k < 5 then e else f else if k < 7 then g else h
  }

  /** tc_cb_sizes */
  function TcCbSizes(i: nat): nat
    requires i < 188
  {
    if i < 8 then Of8(i, 40, 48, 56, 64, 72, 80, 88, 96)
    else if i < 16 then Of8(i - 8, 104, 112, 120, 128, 136, 144, 152, 160)
    else if i < 24 then Of8(i - 16, 168, 176, 184, 192, 200, 208, 216, 224)
    else if i < 32 then Of8(i - 24, 232, 240, 248, 256, 264, 272, 280, 288)
    else if i < 40 then Of8(i - 32, 296, 304, 312, 320, 328, 336, 344, 352)
    else if i < 48 then Of8(i - 40, 360, 368, 376, 384, 392, 400, 408, 416)
    else if i < 56 then Of8(i - 48, 424, 432, 440, 448, 456, 464, 472, 480)
    else if i < 64 then Of8(i - 56, 488, 496, 504, 512, 528, 544, 560, 576)
    else if i < 72 then Of8(i - 64, 592, 608, 624, 640, 656, 672, 688, 704)
    else if i < 80 then Of8(i - 72, 720, 736, 752, 768, 784, 800, 816, 832)
    else if i < 88 then Of8(i - 80, 848, 864, 880, 896, 912, 928, 944, 960)
    else if i < 96 then Of8(i - 88, 976, 992, 1008, 1024, 1056, 1088, 1120, 1152)
    else if i < 104 then Of8(i - 96, 1184, 1216, 1248, 1280, 1312, 1344, 1376, 1408)
    else if i < 112 then Of8(i - 104, 1440, 1472, 1504, 1536, 1568, 1600, 1632, 1664)
    else if i < 120 then Of8(i - 112, 1696, 1728, 1760, 1792, 1824, 1856, 1888, 1920)
    else if i < 128 then Of8(i - 120, 1952, 1984, 2016, 2048, 2112, 2176, 2240, 2304)
    else if i < 136 then Of8(i - 128, 2368, 2432, 2496, 2560, 2624, 2688, 2752, 2816)
    else if i < 144 then Of8(i - 136, 2880, 2944, 3008, 3072, 3136, 3200, 3264, 3328)
    else if i < 152 then Of8(i - 144, 3392, 3456, 3520, 3584, 3648, 3712, 3776, 3840)
    else if i < 160 then Of8(i - 152, 3904, 3968, 4032, 4096, 4160, 4224, 4288, 4352)
    else if i < 168 then Of8(i - 160, 4416, 4480, 4544, 4608, 4672, 4736, 4800, 4864)
    else if i < 176 then Of8(i - 168, 4928, 4992, 5056, 5120, 5184, 5248, 5312, 5376)
    else if i < 184 then Of8(i - 176, 5440, 5504, 5568, 5632, 5696, 5760, 5824, 5888)
    else Of8(i - 184, 5952, 6016, 6080, 6144, 0, 0, 0, 0)
  }

  /** The block sizes in closed form: four arithmetic progressions. */
  function BlockSize(i: nat): (k: nat)
    requires i < NOF_TC_CB_SIZES
    ensures 40 <= k <= MAX_LEN_CB && k % 8 == 0
  {
    if i < 60 then 40 + 8 * i
    else if i < 92 then 512 + 16 * (i - 59)
    else if i < 124 then 1024 + 32 * (i - 91)
    else 2048 + 64 * (i - 123)
  }

  lemma TableIsBlockSize(i: nat)
    requires i < NOF_TC_CB_SIZES
    ensures TcCbSizes(i) == BlockSize(i)
  {
  }

  lemma BlockSizeIncreasing(i: nat, j: nat)
    requires i < j < NOF_TC_CB_SIZES
    ensures BlockSize(i) < BlockSize(j)
  {
  }

  ghost predicate IsCbSize(n: nat) {
    exists i: nat {:trigger BlockSize(i)} :: i < NOF_TC_CB_SIZES && BlockSize(i) == n
  }

  function IndexFrom(j: nat, n: nat): (r: nat)
    requires j <= NOF_TC_CB_SIZES
    ensures j <= r <= NOF_TC_CB_SIZES
    ensures forall i {:trigger BlockSize(i)} :: j <= i < r ==> BlockSize(i) < n
    ensures r < NOF_TC_CB_SIZES ==> n <= BlockSize(r)
    decreases NOF_TC_CB_SIZES - j
  {
    if j < NOF_TC_CB_SIZES && BlockSize(j) < n then IndexFrom(j + 1, n) else j
  }

  /** Index of the smallest block size that is at least n, or ERROR. */
  function IndexFor(n: nat): (r: int)
    ensures r == ERROR <==> n > MAX_LEN_CB
    ensures n <= MAX_LEN_CB ==>
              && 0 <= r < NOF_TC_CB_SIZES && n <= BlockSize(r)
              && forall i {:trigger BlockSize(i)} :: 0 <= i < r ==> BlockSize(i) < n
  {
    var j := IndexFrom(0, n);
    assert BlockSize(187) == MAX_LEN_CB;
    if j == NOF_TC_CB_SIZES then ERROR else j
  }

  /** The search finds n itself exactly when n is a table entry: any other length up to the
      maximum is silently rounded up to the next entry, not rejected. */
  lemma IndexForExact(n: nat)
    requires n <= MAX_LEN_CB
    ensures BlockSize(IndexFor(n)) == n <==> IsCbSize(n)
  {
    var j := IndexFrom(0, n);
    if IsCbSize(n) {
      var i: nat :| i < NOF_TC_CB_SIZES && BlockSize(i) == n;
      if j < i { BlockSizeIncreasing(j, i); }
    }
  }

  lemma IndexForSize(i: nat)
    requires i < NOF_TC_CB_SIZES
    ensures IndexFor(BlockSize(i)) == i
  {
    var j := IndexFrom(0, BlockSize(i));
    if j < i { BlockSizeIncreasing(j, i); }
  }

  /** srslte_cbsegm_cbindex */
  method CbIndex(longCb: nat) returns (ret: int)
    ensures ret == IndexFor(longCb)
  {
    var j := 0;
    while j < NOF_TC_CB_SIZES && TcCbSizes(j) < longCb
      invariant 0 <= j <= NOF_TC_CB_SIZES
      invariant IndexFrom(0, longCb) == IndexFrom(j, longCb)
    {
      TableIsBlockSize(j);
      j := j + 1;
    }
    if j < NOF_TC_CB_SIZES { TableIsBlockSize(j); }
    return if j == NOF_TC_CB_SIZES then ERROR else j;
  }

  /** srslte_cbsegm_cbsize */
  method CbSize(index: nat) returns (ret: int)
    ensures ret == if index < NOF_TC_CB_SIZES then BlockSize(index) else ERROR
  {
    if index < NOF_TC_CB_SIZES { TableIsBlockSize(index); }
    return if index < NOF_TC_CB_SIZES then TcCbSizes(index) else ERROR;
  }
}
