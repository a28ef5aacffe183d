/** Map buffers in memory against map blocks on the device: the same bits in the same order. */
module MapBytes {
  import opened Numbers
  import opened Endian
  import opened PackedBits
  import opened Layout
  import opened Metadata

  function BitsIn(w: bv8): (r: seq<bool>)
    ensures |r| == 8 && forall k: nat :: k < 8 ==> r[k] == IsSet(w, k)
  {
    seq(8, (k: nat) requires k < 8 => IsSet(w, k))
  }

  /** The byte that is stored for a buffer word. */
  function ToByte(w: bv8): (r: Byte) {
    PackByte(BitsIn(w))
  }

  /** The word with the first `k` of these bits. */
  function FirstBits(bits: seq<bool>, k: nat): (w: bv8)
    requires |bits| == 8 && k <= 8
  {
    if k == 0 then 0 else Assign(FirstBits(bits, k - 1), k - 1, bits[k - 1])
  }

  lemma {:induction false} FirstBitsAre(bits: seq<bool>, k: nat, j: nat)
    requires |bits| == 8 && k <= 8 && j < 8
    ensures IsSet(FirstBits(bits, k), j) == (j < k && bits[j])
  {
    if k > 0 {
      FirstBitsAre(bits, k - 1, j);
      AssignIsExact(FirstBits(bits, k - 1), k - 1, bits[k - 1], j);
    }
  }

  /** The buffer word that is read for a byte. */
  function FromByte(b: Byte): (w: bv8) {
    FirstBits(seq(8, (k: nat) requires k < 8 => ByteBit(b, k)), 8)
  }

  lemma {:induction false} FromByteBit(b: Byte, j: nat)
    requires j < 8
    ensures IsSet(FromByte(b), j) == ByteBit(b, j)
  {
    FirstBitsAre(seq(8, (k: nat) requires k < 8 => ByteBit(b, k)), 8, j);
  }

  /** A buffer as it is written to the device. */
  function BytesOf(buf: seq<bv8>): (r: seq<Byte>)
    ensures |r| == |buf|
  {
    seq(|buf|, (k: nat) requires k < |buf| => ToByte(buf[k]))
  }

  /** A block of the device as it is read into a buffer. */
  function WordsOf(bytes: seq<Byte>): (r: seq<bv8>)
    ensures |r| == |bytes|
  {
    seq(|bytes|, (k: nat) requires k < |bytes| => FromByte(bytes[k]))
  }

  // ---------------------------------------------------------------- words are bytes

  lemma HalfWord(w: bv8)
    ensures (w / 2) as int == w as int / 2 && (w & 1) as int == w as int % 2
  {
  }

  lemma HalfWordBits(w: bv8, k: nat)
    requires k < 7
    ensures IsSet(w / 2, k) == IsSet(w, k + 1)
  {
  }

  /** A bit reference reads the bit of that weight. */
  lemma {:induction false} IsSetIsBit(w: bv8, k: nat)
    requires k < 8
    ensures IsSet(w, k) <==> Bit(w as int, k)
  {
    HalfWord(w);
    if k > 0 {
      HalfWordBits(w, k - 1);
      IsSetIsBit(w / 2, k - 1);
    }
  }

  /** A number is determined by its bits. */
  lemma {:induction false} NumberOfBits(n: nat, bits: seq<bool>)
    requires n < Pow2(|bits|) && forall k: nat :: k < |bits| ==> bits[k] == Bit(n, k)
    ensures Number(bits) == n
  {
    if bits != [] {
      var rest := bits[1..];
      forall k: nat | k < |rest|
        ensures rest[k] == Bit(n / 2, k)
      {
        assert rest[k] == bits[k + 1] == Bit(n, k + 1);
      }
      NumberOfBits(n / 2, rest);
      assert bits[0] == Bit(n, 0);
    }
  }

  /** A buffer word and the byte that is stored for it are the same number. */
  lemma {:induction false} WordIsByte(w: bv8)
    ensures ToByte(w) == w as int
  {
    SmallPowers();
    forall k: nat | k < 8
      ensures BitsIn(w)[k] == Bit(w as int, k)
    {
      IsSetIsBit(w, k);
    }
    NumberOfBits(w as int, BitsIn(w));
  }

  /** And so are a byte and the word that is read for it. */
  lemma {:induction false} ByteIsWord(b: Byte)
    ensures FromByte(b) as int == b
  {
    var w := FromByte(b);
    SmallPowers();
    forall k: nat | k < 8
      ensures BitsIn(w)[k] == Bit(b, k)
    {
      FromByteBit(b, k);
    }
    NumberOfBits(b, BitsIn(w));
    WordIsByte(w);
  }

  /** The same 8 bits, at `i / 8` and least significant first, in memory and on the device. */
  lemma {:induction false} BitsAreByWeight(buf: seq<bv8>, i: nat)
    requires i < 8 * |buf|
    ensures BytesOf(buf)[i / 8] == buf[i / 8] as int
    ensures Bits(buf)[i] <==> Bit(buf[i / 8] as int, i % 8)
  {
    WordIsByte(buf[i / 8]);
    IsSetIsBit(buf[i / 8], i % 8);
  }

  lemma {:induction false} BitsOfWord(buf: seq<bv8>, k: nat)
    requires k < |buf|
    ensures Bits(buf)[8 * k..8 * k + 8] == BitsIn(buf[k])
  {
    var l, r := Bits(buf)[8 * k..8 * k + 8], BitsIn(buf[k]);
    forall j: nat | j < 8
      ensures l[j] == r[j]
    {
      DivModUnique(8 * k + j, 8, k, j);
      assert l[j] == Bits(buf)[8 * k + j] == TestBit(buf, 8 * k + j);
    }
  }

  lemma {:induction false} BytesArePacked(buf: seq<bv8>)
    ensures BytesOf(buf) == Pack(Bits(buf), |buf|)
  {
    forall k: nat | k < |buf|
      ensures BytesOf(buf)[k] == PackByte(Bits(buf)[8 * k..8 * k + 8])
    {
      BitsOfWord(buf, k);
    }
  }

  lemma {:induction false} WordsAreUnpacked(bytes: seq<Byte>)
    ensures Bits(WordsOf(bytes)) == Unpack(bytes)
  {
    var l, r := Bits(WordsOf(bytes)), Unpack(bytes);
    forall j: nat | j < 8 * |bytes|
      ensures l[j] == r[j]
    {
      FromByteBit(bytes[j / 8], j % 8);
      assert l[j] == TestBit(WordsOf(bytes), j);
    }
  }

  /** Written and read again, a buffer has the same bits. */
  lemma {:induction false} BufferRoundTrip(buf: seq<bv8>)
    ensures Bits(WordsOf(BytesOf(buf))) == Bits(buf)
  {
    WordsAreUnpacked(BytesOf(buf));
    BytesArePacked(buf);
    UnpackPack(Bits(buf), |buf|);
  }
}
