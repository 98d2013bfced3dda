/** Octets and big-endian numbers, as Java's arrays of bytes hold them. */
module Bytes {
  type Byte = b: int | 0 <= b < 256

  /** How many numbers fit in so many octets. */
  function Range(width: nat): (r: nat)
    ensures r >= 1
  {
    if width == 0 then 1 else 256 * Range(width - 1)
  }

  /** The lowest octets of the two's complement of any number, most significant first. */
  function BigEndian(n: int, width: nat): (bytes: seq<Byte>)
    ensures |bytes| == width
    decreases width
  {
    if width == 0 then [] else BigEndian(n / 256, width - 1) + [n % 256]
  }

  /** The unsigned number that octets stand for. */
  function Value(bytes: seq<Byte>): (n: nat)
    ensures n < Range(|bytes|)
  {
    if bytes == [] then 0 else 256 * Value(bytes[..|bytes| - 1]) + bytes[|bytes| - 1] as int
  }

  lemma {:induction false} MultipleAtLeast(r: nat, d: nat)
    requires d > 0
    ensures r * d >= r
  {
    if d > 1 {
      MultipleAtLeast(r, d - 1);
      assert r * d == r * (d - 1) + r;
    }
  }

  lemma MultipleBelow(r: int, d: int)
    requires r > 0 && -r < r * d < r
    ensures d == 0
  {
    if d > 0 {
      MultipleAtLeast(r, d);
    } else if d < 0 {
      assert r * -d == -(r * d);
      MultipleAtLeast(r, -d);
    }
  }

  lemma ModuloUnique(n: int, r: nat, q: int, m: nat)
    requires r > 0 && n == r * q + m && m < r
    ensures n % r == m
  {
    var k, mm := n / r, n % r;
    assert r * (k - q) == m - mm by {
      assert n == r * k + mm;
      assert r * (k - q) == r * k - r * q;
    }
    MultipleBelow(r, k - q);
  }

  lemma ModuloIsSelfIff(n: int, r: nat)
    requires r > 0
    ensures n % r == n <==> 0 <= n < r
  {
    if 0 <= n < r {
      ModuloUnique(n, r, 0, n);
    }
  }

  lemma ModuloStep(n: int, r: nat)
    requires r > 0
    ensures n % (256 * r) == 256 * (n / 256 % r) + n % 256
  {
    var high := n / 256;
    var q, m := high / r, high % r;
    assert high == r * q + m;
    assert 256 * (r * q) == 256 * r * q;
    ModuloUnique(n, 256 * r, q, 256 * m + n % 256);
  }

  /** Reading back what was written gives the number, modulo what fits. */
  lemma {:induction false} ValueOfBigEndian(n: int, width: nat)
    ensures Value(BigEndian(n, width)) == n % Range(width)
    decreases width
  {
    if width > 0 {
      ValueOfBigEndian(n / 256, width - 1);
      ModuloStep(n, Range(width - 1));
      assert BigEndian(n, width)[..width - 1] == BigEndian(n / 256, width - 1);
    }
  }

  /** Writing what was read gives the octets back. */
  lemma {:induction false} BigEndianOfValue(bytes: seq<Byte>)
    ensures BigEndian(Value(bytes), |bytes|) == bytes
  {
    if bytes != [] {
      BigEndianOfValue(bytes[..|bytes| - 1]);
      assert bytes == bytes[..|bytes| - 1] + [bytes[|bytes| - 1]];
    }
  }

  /** The last octets of a wide number are those of a narrow one. */
  lemma {:induction false} LowOctets(n: int, wide: nat, narrow: nat)
    requires narrow <= wide
    ensures BigEndian(n, wide)[wide - narrow..] == BigEndian(n, narrow)
    decreases narrow
  {
    if narrow > 0 {
      LowOctets(n / 256, wide - 1, narrow - 1);
    }
  }

  lemma SliceOfSlice(s: seq<Byte>, a: nat, b: nat, c: nat, d: nat)
    requires a <= b <= |s| && c <= d <= b - a
    ensures s[a..b][c..d] == s[a + c..a + d]
  {
    assert forall i | 0 <= i < d - c :: s[a..b][c..d][i] == s[a + c..a + d][i];
  }

  function U16(bytes: seq<Byte>): nat
    requires |bytes| >= 2
  {
    256 * (bytes[0] as int) + bytes[1] as int
  }

  lemma U16OfBigEndian(n: int, rest: seq<Byte>)
    ensures U16(BigEndian(n, 2) + rest) == n % 0x1_0000
  {
    assert BigEndian(n, 1) == [n % 256] && BigEndian(n / 256, 1) == [n / 256 % 256];
    assert BigEndian(n, 2) == [n / 256 % 256, n % 256];
  }

  /** The most significant octet stands first. */
  lemma FourOctets(a: Byte, b: Byte, c: Byte, d: Byte)
    ensures Value([a, b, c, d]) == 0x1_00_00_00 * a + 0x1_00_00 * b + 0x1_00 * c + d
  {
    assert [a, b, c, d][..3] == [a, b, c] && [a, b, c][..2] == [a, b] && [a, b][..1] == [a] && [a][..0] == [];
    assert Value([a]) == a && Value([a, b]) == 256 * a + b;
    assert Value([a, b, c]) == 256 * Value([a, b]) + c;
  }

  /** Java's System.arraycopy, from the start of the source. */
  method ArrayCopy(src: seq<Byte>, data: array<Byte>, at: nat, length: nat)
    requires length <= |src| && at + length <= data.Length
    modifies data
    ensures data[..] == old(data[..at]) + src[..length] + old(data[at + length..])
  {
    for i := 0 to length
      invariant data[..] == old(data[..at]) + src[..i] + old(data[at + i..])
    {
      data[at + i] := src[i];
    }
  }
}
