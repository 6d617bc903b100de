/** Cyclic redundancy checks (srslte/lib/fec/crc.c, section 5.1.1 of TS 36.212). */
module Crc {
  import opened Bytes
  import opened Gf2Division
  import opened CrcRegister
  import opened CrcTable

  /** The checksum bits of a bit string: its remainder by the generator. */
  function CheckBits(o: nat, poly: word, bits: seq<bool>): (c: seq<bool>)
    requires Order(o)
    ensures |c| == o
  {
    Remainder(Poly(o, poly), bits)
  }

  /** The register after all bits, started from zero, holds the checksum. */
  lemma RegisterIsChecksum(o: nat, poly: word, bits: seq<bool>)
    requires Order(o) && GoodPoly(o, poly)
    ensures Coefficients(o, FeedBits(o, poly, 0, bits)) == CheckBits(o, poly, bits)
    ensures Fits(o, FeedBits(o, poly, 0, bits))
  {
    hide Coefficients, Fits, GoodPoly, Poly, FeedBit, Feed;
    ZeroCoefficients(o);
    FeedBitsFit(o, poly, 0, bits);
    FeedBitsIsFeedAll(o, poly, 0, bits);
  }

  /** The polynomials of TS 36.212 meet the premise. */
  lemma LtePolynomials()
    ensures GoodPoly(24, 0x1864CFB) && GoodPoly(24, 0x1800063) && GoodPoly(16, 0x11021) && GoodPoly(8, 0x19B)
  {
  }

  function WordOf(i: nat): word {
    if i < 256 then i as word else 0
  }

  lemma WordOfSmall(i: nat)
    requires i < 256
    ensures WordOf(i) <= 0xff
  {
  }

  lemma IndexOfWord(x: word)
    requires x <= 0xff
    ensures (x as nat) < 256
    ensures WordOf(x as nat) == x
  {
  }

  lemma MaskFormula(o: nat)
    requires Order(o)
    ensures ((High(o) - 1) << 1) | 1 == CrcMask(o)
  {
  }

  lemma MaskKeeps(o: nat, w: word)
    requires Order(o) && Fits(o, w)
    ensures Masked(o, w) == w
  {
    hide MaskBy, Fits;
    MaskInside(o, w);
  }

  /** A partial byte of n bits, padded with zeros. */
  function PadByte(bits: seq<bool>): (s: seq<bool>)
    requires |bits| <= 8
    ensures |s| == 8
  {
    bits + Zeros(8 - |bits|)
  }

  /** srslte_crc_t */
  class CrcHandle {
    var polynom: word
    var order: nat
    var crcinit: word
    var crcmask: word
    var crchighbit: word
    const table: array<word>

    ghost predicate Valid()
      reads this, table
    {
      && Order(order) && GoodPoly(order, polynom)
      && crcmask == CrcMask(order) && crchighbit == High(order)
      && table.Length == 256 && forall i :: 0 <= i < 256 ==> table[i] == Entry(order, polynom, WordOf(i))
    }

    constructor ()
      ensures table.Length == 256 && fresh(table)
    {
      table := new word[256](_ => 0);
    }

    /** srslte_crc_init, for the orders of LTE. */
    method Init(crcPoly: word, crcOrder: nat) returns (ret: int)
      requires table.Length == 256
      requires crcOrder % 8 == 0 ==> Order(crcOrder) && GoodPoly(crcOrder, crcPoly)
      modifies this, table
      ensures ret == if crcOrder % 8 == 0 then 0 else -1
      ensures ret == 0 ==> Valid() && polynom == crcPoly && order == crcOrder
    {
      polynom := crcPoly;
      order := crcOrder;
      crcinit := 0;
      if order % 8 != 0 { return -1; }
      crcmask := ((High(order) - 1) << 1) | 1;
      crchighbit := High(order);
      MaskFormula(order);
      GenTable();
      return 0;
    }

    /** gen_crc_table */
    method GenTable()
      requires Order(order) && GoodPoly(order, polynom) && crcmask == CrcMask(order) && crchighbit == High(order)
      requires table.Length == 256
      modifies table
      ensures Valid()
    {
      hide Entry, WordOf, GoodPoly, CrcMask, High;
      for i := 0 to 256
        invariant forall k :: 0 <= k < i ==> table[k] == Entry(order, polynom, WordOf(k))
      {
        WordOfSmall(i);
        var crc := GenEntry(WordOf(i));
        table[i] := crc;
      }
    }

    /** The eight rounds for one table entry. */
    method GenEntry(x: word) returns (crc: word)
      requires Order(order) && GoodPoly(order, polynom) && crcmask == CrcMask(order) && crchighbit == High(order)
      requires x <= 0xff
      ensures crc == Entry(order, polynom, x)
    {
      hide Plus, Double, HasBit, High, Place, MaskBy, CrcMask, GoodPoly, Fits;
      crc := Place(order, x);
      PlaceFits(order, x);
      StepsFit(order, polynom, crc, 8);
      for j := 0 to 8
        invariant Steps(order, polynom, crc, 8 - j) == Entry(order, polynom, x)
      {
        var bit := HasBit(crc, crchighbit);
        crc := Double(crc);
        if bit {
          crc := Plus(crc, polynom);
        }
      }
      MaskKeeps(order, crc);
      crc := MaskBy(crc, crcmask);
    }

    /** crctable */
    method Table(b: byte) returns (crc: word)
      requires Valid()
      modifies this`crcinit
      ensures Valid() && crc == Masked(order, crcinit)
      ensures crc == FeedBits(order, polynom, Masked(order, old(crcinit)), UnpackByte(b))
    {
      hide Entry, Plus, TopByte, ShiftByte, MaskBy, GoodPoly, UnpackByte, FeedBits, WordOf, Index;
      crc := crcinit;
      var x := Index(order, crc, b as word);
      MsbsAreBits(b);
      IndexIsByte(order, crc, b as word);
      IndexOfWord(x);
      TableStepFeeds(order, polynom, crc, b);
      crc := Plus(ShiftByte(crc), table[x as nat]);
      crcinit := crc;
      crc := MaskBy(crc, crcmask);
    }

    /** reversecrcbit */
    method Reverse(crc: word, nbits: nat) returns (r: word)
      requires Valid()
      ensures r == Masked(order, StepsBack(polynom, crc, nbits))
    {
      hide Plus, Halve, HasBit, MaskBy, GoodPoly, Entry;
      r := crc;
      for m := 0 to nbits
        invariant StepsBack(polynom, r, nbits - m) == StepsBack(polynom, crc, nbits)
      {
        if HasBit(r, 1) {
          r := Halve(Plus(r, polynom));
        } else {
          r := Halve(r);
        }
      }
      r := MaskBy(r, crcmask);
    }

    /** srslte_crc_set_init */
    method SetInit(value: word) returns (ret: int)
      requires Valid()
      modifies this`crcinit
      ensures Valid() && crcinit == value && ret == if Masked(order, value) == value then 0 else -1
    {
      crcinit := value;
      return if crcinit != MaskBy(crcinit, crcmask) then -1 else 0;
    }

    /** The byte that the checksum loop takes from bit position start: eight bits, or the last n
        with zeros after them. */
    method Pack(data: array<bool>, start: nat, n: nat) returns (b: byte)
      requires n <= 8 && start + n <= data.Length
      ensures UnpackByte(b) == PadByte(data[start..start + n])
    {
      b := 0;
      ghost var bits := data[start..start + n];
      hide UnpackByte, SetMask, Bytes.Mask, BitOf;
      forall j | 0 <= j < 8 ensures !BitOf(0, j) { ZeroByte(j); }
      for k := 0 to n
        invariant forall j :: 0 <= j < 8 ==> BitOf(b, j) == (j < k && bits[j])
      {
        if data[start + k] {
          OrSets(b, k);
          forall j | 0 <= j < 8
            ensures BitOf(SetBit(b, k, true), j) == (j < k + 1 && bits[j])
          {
            SetBitSpec(b, k, true, j);
          }
          b := b | Bytes.Mask(k);
        }
      }
      forall j | 0 <= j < 8
        ensures UnpackByte(b)[j] == PadByte(bits)[j]
      {
        UnpackAt(b, j);
      }
    }

    /** srslte_crc_checksum: one table step for every eight bits, the last byte padded, then the
        padding taken back. */
    method Checksum(data: array<bool>, len: nat) returns (crc: word)
      requires Valid() && len <= data.Length
      modifies this`crcinit
      ensures Valid() && crc == FeedBits(order, polynom, 0, data[..len])
      ensures Coefficients(order, crc) == CheckBits(order, polynom, data[..len]) && Fits(order, crc)
    {
      hide UnpackByte, GoodPoly, FeedBits, Entry, StepsBack, Masked, Coefficients;
      var ret := SetInit(0);
      var len8 := len / 8;
      var res8 := len - 8 * len8;
      var a := if res8 > 0 then 1 else 0;
      crc := 0;
      StartEmpty(order, polynom);
      assert data[..0] == [];
      for i := 0 to len8
        invariant Valid() && polynom == old(polynom) && order == old(order)
        invariant crc == Masked(order, crcinit) == FeedBits(order, polynom, 0, data[..8 * i])
      {
        var b := Pack(data, 8 * i, 8);
        assert PadByte(data[8 * i..8 * i + 8]) == data[8 * i..8 * i + 8];
        assert data[..8 * (i + 1)] == data[..8 * i] + data[8 * i..8 * i + 8];
        FeedBitsAppend(order, polynom, 0, data[..8 * i], data[8 * i..8 * i + 8]);
        crc := Table(b);
      }
      if a == 1 {
        crc := LastByte(data, len, len8, res8);
      } else {
        assert data[..len] == data[..8 * len8];
      }
      RegisterIsChecksum(order, polynom, data[..len]);
    }

    /** The padded last byte and its undoing. */
    method LastByte(data: array<bool>, len: nat, len8: nat, res8: nat) returns (crc: word)
      requires Valid() && len <= data.Length && len == 8 * len8 + res8 && 0 < res8 < 8
      requires Masked(order, crcinit) == FeedBits(order, polynom, 0, data[..8 * len8])
      modifies this`crcinit
      ensures Valid() && crc == FeedBits(order, polynom, 0, data[..len])
    {
      hide UnpackByte, GoodPoly, FeedBits, Entry, StepsBack, Masked, Coefficients, Fits;
      var b := Pack(data, 8 * len8, res8);
      ghost var bits, z := data[..len], Zeros(8 - res8);
      assert data[..8 * len8] + PadByte(data[8 * len8..len]) == bits + z;
      FeedBitsAppend(order, polynom, 0, data[..8 * len8], PadByte(data[8 * len8..len]));
      crc := Table(b);
      FeedBitsAppend(order, polynom, 0, bits, z);
      RegisterIsChecksum(order, polynom, bits);
      StepsBackUndo(order, polynom, FeedBits(order, polynom, 0, bits), 8 - res8);
      crc := Reverse(crc, 8 - res8);
      MaskKeeps(order, FeedBits(order, polynom, 0, bits));
    }

    /** srslte_crc_checksum_byte */
    method ChecksumByte(data: array<byte>, len: nat) returns (crc: word)
      requires Valid() && len / 8 <= data.Length
      modifies this`crcinit
      ensures Valid() && crc == FeedBits(order, polynom, 0, Bits(data[..len / 8]))
      ensures Coefficients(order, crc) == CheckBits(order, polynom, Bits(data[..len / 8])) && Fits(order, crc)
    {
      hide UnpackByte, GoodPoly, FeedBits, Entry, Masked, Coefficients, Bits;
      var ret := SetInit(0);
      crc := 0;
      StartEmpty(order, polynom);
      assert data[..0] == [];
      assert Bits([]) == [];
      for i := 0 to len / 8
        invariant Valid() && polynom == old(polynom) && order == old(order)
        invariant crc == Masked(order, crcinit) == FeedBits(order, polynom, 0, Bits(data[..i]))
      {
        assert data[..i + 1] == data[..i] + [data[i]];
        BitsAppend(data[..i], data[i]);
        FeedBitsAppend(order, polynom, 0, Bits(data[..i]), UnpackByte(data[i]));
        crc := Table(data[i]);
      }
      RegisterIsChecksum(order, polynom, Bits(data[..len / 8]));
    }

    /** srslte_bit_unpack of the checksum, behind the data. */
    method Unpack(data: array<bool>, len: nat, checksum: word)
      requires Valid() && len + order <= data.Length && data as object != table
      modifies data
      ensures data[..len + order] == old(data[..len]) + Coefficients(order, checksum)
      ensures forall k :: len + order <= k < data.Length ==> data[k] == old(data[k])
    {
      hide BitAt, GoodPoly, Entry;
      ghost var c := Coefficients(order, checksum);
      for i := 0 to order
        invariant forall k :: len <= k < len + i ==> data[k] == c[k - len]
        invariant forall k :: 0 <= k < len || len + order <= k < data.Length ==> data[k] == old(data[k])
      {
        data[len + i] := BitAt(checksum, order - i - 1);
      }
    }

    /** srslte_crc_attach: what is attached makes the whole block check to zero. */
    method Attach(data: array<bool>, len: nat) returns (checksum: word)
      requires Valid() && len + order <= data.Length && data as object != table
      modifies this`crcinit, data
      ensures Valid()
      ensures data[..len + order] == old(data[..len]) + CheckBits(order, polynom, old(data[..len]))
      ensures Coefficients(order, checksum) == CheckBits(order, polynom, old(data[..len]))
      ensures IsZero(CheckBits(order, polynom, data[..len + order]))
      ensures forall k :: len + order <= k < data.Length ==> data[k] == old(data[k])
    {
      hide GoodPoly, Entry, CheckBits, Coefficients, Fits, FeedBits;
      ghost var bits := data[..len];
      checksum := Checksum(data, len);
      Unpack(data, len, checksum);
      AttachedChecks(order, polynom, bits);
    }

    /** The byte loop of srslte_crc_attach_byte. */
    method StoreBytes(data: array<byte>, n: nat, checksum: word)
      requires Valid() && n + order / 8 <= data.Length && data as object != table
      modifies data
      ensures data[..n] == old(data[..n])
      ensures Bits(data[n..n + order / 8]) == Coefficients(order, checksum)
      ensures forall k :: n + order / 8 <= k < data.Length ==> data[k] == old(data[k])
    {
      hide GoodPoly, Entry, Bits, Coefficients, ByteAt;
      var m := order / 8;
      for i := 0 to m
        invariant forall k :: n + m - i <= k < n + m ==> data[k] == ByteAt(checksum, n + m - 1 - k)
        invariant forall k :: 0 <= k < n || n + m <= k < data.Length ==> data[k] == old(data[k])
      {
        data[n + (m - i - 1)] := ByteAt(checksum, i);
      }
      ChecksumBytes(order, checksum, data[n..n + m]);
    }

    /** srslte_crc_attach_byte, for a whole number of bytes */
    method AttachByte(data: array<byte>, len: nat) returns (checksum: word)
      requires Valid() && len % 8 == 0 && len / 8 + order / 8 <= data.Length && data as object != table
      modifies this`crcinit, data
      ensures Valid()
      ensures data[..len / 8] == old(data[..len / 8])
      ensures Bits(data[len / 8..len / 8 + order / 8]) == CheckBits(order, polynom, Bits(old(data[..len / 8])))
      ensures Coefficients(order, checksum) == CheckBits(order, polynom, Bits(old(data[..len / 8])))
      ensures IsZero(CheckBits(order, polynom, Bits(data[..len / 8 + order / 8])))
      ensures forall k :: len / 8 + order / 8 <= k < data.Length ==> data[k] == old(data[k])
    {
      hide GoodPoly, Entry, CheckBits, Coefficients, Fits, FeedBits, Bits;
      var n, m := len / 8, order / 8;
      ghost var head := data[..n];
      checksum := ChecksumByte(data, len);
      StoreBytes(data, n, checksum);
      assert data[..n + m] == head + data[n..n + m];
      BitsConcat(head, data[n..n + m]);
      AttachedChecks(order, polynom, Bits(head));
    }
  }

  /** The checksum is the one remainder of the polynomial division of the data, shifted up by the
      order, by the generator. */
  lemma CheckBitsDivide(o: nat, poly: word, bits: seq<bool>, q: seq<bool>, r: seq<bool>)
    requires Order(o) && GoodPoly(o, poly)
    ensures Division(Poly(o, poly), bits, Quotient(Poly(o, poly), bits), CheckBits(o, poly, bits))
    ensures Division(Poly(o, poly), bits, q, r) ==> r == CheckBits(o, poly, bits)
  {
    hide GoodPoly, Poly, Remainder, Quotient, Division, Generator;
    PolyIsGenerator(o, poly);
    RegisterDivides(Poly(o, poly), bits, o);
    if Division(Poly(o, poly), bits, q, r) { DivisionUnique(Poly(o, poly), bits, o, q, r); }
  }

  /** An error burst no longer than the checksum is always noticed. */
  lemma BurstNoticed(o: nat, poly: word, codeword: seq<bool>, before: nat, burst: seq<bool>, after: nat)
    requires Order(o) && GoodPoly(o, poly) && |burst| <= o && !IsZero(burst)
    requires |codeword| == before + |burst| + after && IsZero(CheckBits(o, poly, codeword))
    ensures !IsZero(CheckBits(o, poly, Xor(codeword, Zeros(before) + burst + Zeros(after))))
  {
    hide GoodPoly, Poly, Remainder, Generator, Xor;
    PolyIsGenerator(o, poly);
    BurstDetected(Poly(o, poly), o, codeword, before, burst, after);
  }

  lemma AttachedChecks(o: nat, poly: word, bits: seq<bool>)
    requires Order(o) && GoodPoly(o, poly)
    ensures IsZero(CheckBits(o, poly, bits + CheckBits(o, poly, bits)))
  {
    hide GoodPoly, Poly, Remainder, Generator;
    PolyIsGenerator(o, poly);
    ChecksExactly(Poly(o, poly), o, bits, CheckBits(o, poly, bits));
  }

  lemma ZeroByte(j: nat)
    requires j < 8
    ensures !BitOf(0, j)
  {
  }

  lemma OrSets(b: byte, k: nat)
    requires k < 8
    ensures SetBit(b, k, true) == b | Bytes.Mask(k)
  {
    hide Bytes.Mask;
  }

  lemma StartEmpty(o: nat, poly: word)
    ensures FeedBits(o, poly, 0, []) == 0 == Masked(o, 0)
  {
  }

  /** (checksum & (0xff << 8 * i)) >> 8 * i */
  function ByteAt(w: word, i: nat): byte {
    (if i == 0 then w & 0xff else if i == 1 then (w >> 8) & 0xff else (w >> 16) & 0xff) as byte
  }

  /** The checksum's bytes, most significant first, spell its bits. */
  lemma ChecksumBytes(o: nat, w: word, bytes: seq<byte>)
    requires Order(o) && |bytes| == o / 8 && forall k :: 0 <= k < o / 8 ==> bytes[k] == ByteAt(w, o / 8 - 1 - k)
    ensures Bits(bytes) == Coefficients(o, w)
  {
    hide BitOf, BitAt, ByteAt;
    forall k | 0 <= k < o
      ensures Bits(bytes)[k] == Coefficients(o, w)[k]
    {
      var i := o / 8 - k / 8 - 1;
      assert bytes[k / 8] == ByteAt(w, i);
      ByteBit(w, i, k % 8);
    }
  }

  lemma ByteBit(w: word, i: nat, j: nat)
    requires i < 3 && j < 8
    ensures BitOf(ByteAt(w, i), j) == BitAt(w, 8 * i + 7 - j)
  {
    hide BitOf, BitAt, ByteAt;
    if i == 0 { ByteBit0(w, j); } else if i == 1 { ByteBit1(w, j); } else { ByteBit2(w, j); }
  }

  lemma ByteBit0(w: word, j: nat)
    requires j < 8
    ensures BitOf(ByteAt(w, 0), j) == BitAt(w, 7 - j)
  {
  }

  lemma ByteBit1(w: word, j: nat)
    requires j < 8
    ensures BitOf(ByteAt(w, 1), j) == BitAt(w, 15 - j)
  {
  }

  lemma ByteBit2(w: word, j: nat)
    requires j < 8
    ensures BitOf(ByteAt(w, 2), j) == BitAt(w, 23 - j)
  {
  }
}
