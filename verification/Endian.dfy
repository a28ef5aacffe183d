/** Bytes and the fixed-width integers stored in them. */
module Endian {
  import opened Numbers

  type Byte = x: int | 0 <= x < 256

  /** Big-endian image of the low 32 bits. */
  function PutBe32(x: int): (s: seq<Byte>)
    ensures |s| == 4
  {
    var u := U32(x);
    [u / 0x100_0000, u / 0x1_0000 % 256, u / 0x100 % 256, u % 256]
  }

  function GetBe32(s: seq<Byte>): (r: nat)
    requires |s| == 4
    ensures r < TWO_32
  {
    0x100_0000 * (s[0] as int) + 0x1_0000 * (s[1] as int) + 0x100 * (s[2] as int) + s[3]
  }

  lemma Be32RoundTrip(x: int)
    ensures GetBe32(PutBe32(x)) == U32(x)
  {
    Digits(U32(x));
  }

  lemma Digits(u: nat)
    requires u < TWO_32
    ensures u == 0x100_0000 * (u / 0x100_0000) + 0x1_0000 * (u / 0x1_0000 % 256) + 0x100 * (u / 0x100 % 256) + u % 256
  {
    var a := u / 0x100;
    var b := u / 0x1_0000;
    assert b == a / 0x100;
    assert u / 0x100_0000 == b / 0x100;
  }

  /** Big-endian image of the low 64 bits: the high word, then the low word. */
  function PutBe64(x: int): (s: seq<Byte>)
    ensures |s| == 8
  {
    PutBe32(U64(x) / 0x1_0000_0000) + PutBe32(U64(x))
  }

  function GetBe64(s: seq<Byte>): (r: nat)
    requires |s| == 8
  {
    0x1_0000_0000 * GetBe32(s[..4]) + GetBe32(s[4..])
  }

  lemma Be64RoundTrip(x: int)
    ensures GetBe64(PutBe64(x)) == U64(x)
  {
    var u := U64(x);
    var s := PutBe64(x);
    assert s[..4] == PutBe32(u / 0x1_0000_0000) && s[4..] == PutBe32(u);
    Be32RoundTrip(u / 0x1_0000_0000);
    Be32RoundTrip(u);
    assert U32(u / 0x1_0000_0000) == u / 0x1_0000_0000;
  }

  /** The number with these digits to base 256, most significant first. */
  function BigEndian(s: seq<Byte>): (r: nat) {
    if s == [] then 0 else 256 * BigEndian(s[..|s| - 1]) + s[|s| - 1]
  }

  lemma {:induction false} Be32IsBigEndian(s: seq<Byte>)
    requires |s| == 4
    ensures GetBe32(s) == BigEndian(s)
  {
    assert s[..3][..2] == s[..2] && s[..2][..1] == s[..1] && s[..1][..0] == [];
    assert BigEndian(s[..1]) == s[0];
    assert BigEndian(s[..2]) == 256 * (s[0] as int) + s[1];
  }

  lemma {:induction false} BigEndianAppend(a: seq<Byte>, b: seq<Byte>)
    requires |b| == 4
    ensures BigEndian(a + b) == 0x1_0000_0000 * BigEndian(a) + BigEndian(b)
  {
    assert (a + b)[..|a| + 3] == a + b[..3] && (a + b[..3])[..|a| + 2] == a + b[..2];
    assert (a + b[..2])[..|a| + 1] == a + b[..1] && (a + b[..1])[..|a|] == a;
    assert b[..3][..2] == b[..2] && b[..2][..1] == b[..1] && b[..1][..0] == [];
    assert BigEndian(b[..1]) == b[0] && BigEndian(a + b[..1]) == 256 * BigEndian(a) + b[0];
    assert BigEndian(b[..2]) == 256 * (b[0] as int) + b[1];
    assert BigEndian(a + b[..2]) == 256 * (256 * BigEndian(a) + b[0]) + b[1];
  }

  lemma {:induction false} Be64IsBigEndian(s: seq<Byte>)
    requires |s| == 8
    ensures GetBe64(s) == BigEndian(s)
  {
    assert s == s[..4] + s[4..];
    BigEndianAppend(s[..4], s[4..]);
    Be32IsBigEndian(s[..4]);
    Be32IsBigEndian(s[4..]);
  }

  function Zeros(n: nat): (r: seq<Byte>)
    ensures |r| == n && forall k: nat :: k < n ==> r[k] == 0
  {
    seq(n, (_: nat) => 0)
  }

  /** Copying `src` into a buffer at `at`. */
  function Patch(s: seq<Byte>, at: nat, src: seq<Byte>): (r: seq<Byte>)
    requires at + |src| <= |s|
    ensures |r| == |s|
    ensures r[at..at + |src|] == src
    ensures r[..at] == s[..at] && r[at + |src|..] == s[at + |src|..]
  {
    s[..at] + src + s[at + |src|..]
  }

  /** A patch leaves every range that it does not meet unchanged. */
  lemma PatchElsewhere(s: seq<Byte>, at: nat, src: seq<Byte>, from: nat, to: nat)
    requires at + |src| <= |s| && from <= to <= |s|
    requires to <= at || at + |src| <= from
    ensures Patch(s, at, src)[from..to] == s[from..to]
  {
  }

  /** `memcpy` into a byte buffer. */
  method Copy(buf: array<Byte>, at: nat, src: seq<Byte>)
    requires at + |src| <= buf.Length
    modifies buf
    ensures buf[..] == Patch(old(buf[..]), at, src)
  {
    var k := 0;
    while k < |src|
      invariant k <= |src|
      invariant forall i: nat :: i < buf.Length ==>
                  buf[i] == if at <= i < at + k then src[i - at] else old(buf[i])
    {
      buf[at + k] := src[k];
      k := k + 1;
    }
    ghost var want := Patch(old(buf[..]), at, src);
    assert forall i: nat :: i < buf.Length ==> want[i] == if at <= i < at + |src| then src[i - at] else old(buf[i]);
  }
}
