/** The zlib container of section 2 of RFC 1950 around the block, and a reference reader for it. */
module Zlib {
  import opened Prelude
  import opened BitStrings
  import opened Deflate
  import opened Inflate
  import opened Encoder
  import opened RoundTrip

  const ADLER_MODULUS := 65521

  function Sum(bytes: seq<Byte>): nat {
    if bytes == [] then 0 else Sum(bytes[..|bytes| - 1]) + bytes[|bytes| - 1]
  }

  /** The sum of the sums of all beginnings: n * b1 + (n - 1) * b2 + ... + 1 * bn. */
  function WeightedSum(bytes: seq<Byte>): nat {
    if bytes == [] then 0 else WeightedSum(bytes[..|bytes| - 1]) + Sum(bytes)
  }

  /** Section 8.2 of RFC 1950, without running sums: s2 * 65536 + s1. */
  function Adler32(bytes: seq<Byte>): (r: nat)
    ensures r < 0x1_0000_0000
  {
    (|bytes| + WeightedSum(bytes)) % ADLER_MODULUS * 65536 + (1 + Sum(bytes)) % ADLER_MODULUS
  }

  // ----- the modulus and the starting value -----

  ghost predicate IsPrime(n: nat) {
    n >= 2 && forall d :: 2 <= d < n ==> n % d != 0
  }

  lemma NoDivisorIsPrime(n: nat, bound: nat)
    requires 2 <= bound && 2 <= n < bound * bound && forall d :: 2 <= d < bound ==> n % d != 0
    ensures IsPrime(n)
  {
    forall d | 2 <= d < n
      ensures n % d != 0
    {
      if n % d == 0 {
        var e := OtherFactor(n, d);
        if e >= bound && d >= bound {
          Products(bound, d, e);
        }
        Divides(n, d, e);
      }
    }
  }

  lemma OtherFactor(n: nat, d: nat) returns (e: nat)
    requires 2 <= d < n && n % d == 0
    ensures n == d * e && 2 <= e < n
  {
    e := n / d;
    assert n == d * e;
    if e >= n {
      Products(1, d - 1, e);
    }
  }

  lemma Products(bound: nat, d: nat, e: nat)
    requires bound <= d && bound <= e
    ensures bound * bound <= d * e
  {
  }

  lemma Divides(n: nat, d: nat, e: nat)
    requires n == d * e && e > 0
    ensures n % e == 0
  {
    AddMod(0, 0, e);
    assert n % e == (d * e) % e;
    NoSmallMultiple(d - n / e, e, n % e);
  }

  /** Section 9 of RFC 1950: the base of the sums is the largest prime smaller than 65536. */
  lemma ModulusIsTheLargestPrime()
    ensures IsPrime(ADLER_MODULUS) && ADLER_MODULUS < 65536
    ensures forall n :: ADLER_MODULUS < n < 65536 ==> !IsPrime(n)
  {
    assert forall d :: 2 <= d < 256 ==> 65521 % d != 0;
    NoDivisorIsPrime(65521, 256);
    forall n | ADLER_MODULUS < n < 65536
      ensures !IsPrime(n)
    {
      assert n % 2 == 0 || n % 3 == 0 || n % 5 == 0 || n % 7 == 0 || n % 13 == 0 || n % 19 == 0;
    }
  }

  /** Starting from 1, the sums count leading zeros: no fewer than 65521 of them go unnoticed. */
  lemma LeadingZerosCount(data: seq<Byte>, zeros: nat)
    requires 0 < zeros < 65521
    ensures Adler32(Zeros(zeros) + data) != Adler32(data)
  {
    var m, n := |data| + WeightedSum(data), zeros;
    ZerosInFront(data, zeros);
    if (n + m) % 65521 == m % 65521 {
      NoSmallMultiple((n + m) / 65521 - m / 65521, 65521, n);
    }
  }

  function Zeros(n: nat): seq<Byte> {
    seq(n, _ => 0)
  }

  lemma {:induction false} ZerosInFront(data: seq<Byte>, n: nat)
    ensures Sum(Zeros(n) + data) == Sum(data) && WeightedSum(Zeros(n) + data) == WeightedSum(data)
    decreases |data| + n
  {
    var all := Zeros(n) + data;
    if data != [] {
      var front := data[..|data| - 1];
      ZerosInFront(front, n);
      assert all[..|all| - 1] == Zeros(n) + front;
      SumsStep(all, Zeros(n) + front);
      SumsStep(data, front);
    } else if n > 0 {
      ZerosInFront(data, n - 1);
      assert all[..|all| - 1] == Zeros(n - 1) + data;
      SumsStep(all, Zeros(n - 1) + data);
    }
  }

  /** Of no bytes the sum is 1; of "abc" it is what every implementation of the checksum answers. */
  lemma ChecksumsOfShortTexts()
    ensures Adler32([]) == 1 && Adler32([97, 98, 99]) == 0x024d_0127
  {
    assert [97, 98, 99][..2] == [97, 98] && [97, 98][..1] == [97] && [97][..0] == [];
    SumsStep([97], []);
    SumsStep([97, 98], [97]);
    SumsStep([97, 98, 99], [97, 98]);
  }

  // ----- the running sums -----

  lemma AddMod(a: nat, b: nat, m: nat)
    requires 0 < m
    ensures (a % m + b) % m == (a + b) % m
    ensures (b + a % m) % m == (a + b) % m
  {
    var q, r := a / m, (a % m + b) % m;
    var k := (a % m + b) / m;
    assert a == m * q + a % m;
    assert a + b == m * (q + k) + r;
    var d := (a + b) / m;
    assert a + b == m * d + (a + b) % m;
    assert (q + k - d) * m == (a + b) % m - r;
    NoSmallMultiple(q + k - d, m, (a + b) % m - r);
  }

  lemma NoSmallMultiple(x: int, p: int, s: int)
    requires x * p == s && -p < s < p
    ensures s == 0
  {
  }

  lemma SumsStep(bytes: seq<Byte>, front: seq<Byte>)
    requires bytes != [] ==> front == bytes[..|bytes| - 1]
    ensures if bytes == [] then Sum(bytes) == WeightedSum(bytes) == 0
      else Sum(bytes) == Sum(front) + bytes[|bytes| - 1] && WeightedSum(bytes) == WeightedSum(front) + Sum(bytes)
  {
  }

  /** The two running sums of the source, each reduced at every byte. */
  method Checksum(data: seq<Byte>) returns (sum: nat)
    ensures sum == Adler32(data)
  {
    hide Sum, WeightedSum;
    assert data[..0] == [];
    SumsStep([], []);
    var low, high := 1, 0;
    for i := 0 to |data|
      invariant low == (1 + Sum(data[..i])) % ADLER_MODULUS
      invariant high == (i + WeightedSum(data[..i])) % ADLER_MODULUS
    {
      var front := data[..i + 1];
      SumsStep(front, data[..i]);
      AddMod(1 + Sum(data[..i]), data[i], ADLER_MODULUS);
      low := (low + data[i]) % ADLER_MODULUS;
      AddMod(i + WeightedSum(data[..i]), low, ADLER_MODULUS);
      AddMod(1 + Sum(front), i + WeightedSum(data[..i]), ADLER_MODULUS);
      high := (high + low) % ADLER_MODULUS;
    }
    assert data[..|data|] == data;
    return high * 65536 + low;
  }

  /**
   A reference reader for section 2.2 of RFC 1950: the header's method, window, check and
   dictionary bits, one deflate block, then at the next byte boundary the checksum and nothing else.
   */
  function ReadZlib(bytes: seq<Byte>): Option<seq<Byte>> {
    if |bytes| < 2 then None else
    var cmf: nat, flg: nat := bytes[0], bytes[1];
    if cmf % 16 != 8 || cmf / 16 > 7 || (cmf * 256 + flg) % 31 != 0 || flg / 32 % 2 == 1 then None else
    var body := bytes[2..];
    var (data, left) :- InflateBlock(BytesBits(body));
    var trailer := |left| / 8;
    if trailer != 4 || FromBigEndian(body[|body| - 4..]) != Adler32(data) then None else Some(data)
  }

  method ZlibStream(data: seq<Byte>) returns (bytes: seq<Byte>)
    ensures bytes == [0x78, 0x01] + Deflated(data) + BigEndian(Adler32(data), 4)
    ensures ReadZlib(bytes) == Some(data)
  {
    var block := Compress(data);
    var sum := Checksum(data);
    bytes := [0x78, 0x01] + block + BigEndian(sum, 4);
    ZlibRoundTrip(data);
  }

  lemma Associates(a: seq<bool>, b: seq<bool>, c: seq<bool>)
    ensures a + (b + c) == a + b + c
  {
  }

  lemma {:induction false} BytesBitsConcat(a: seq<Byte>, b: seq<Byte>)
    ensures BytesBits(a + b) == BytesBits(a) + BytesBits(b)
  {
    hide LsbFirst;
    if a == [] {
      assert a + b == b;
      assert BytesBits(a) == [];
    } else {
      var rest := a[1..];
      BytesBitsConcat(rest, b);
      BytesBitsCons(a[0], rest + b);
      assert BytesBits(a) == LsbFirst(a[0], 8) + BytesBits(rest);
      hide BytesBits;
      assert a + b == [a[0]] + (rest + b);
      Associates(LsbFirst(a[0], 8), BytesBits(rest), BytesBits(b));
    }
  }

  lemma FourBytes()
    ensures Pow2(32) == 0x1_0000_0000
  {
    ByteOfPow2(0);
    ByteOfPow2(8);
    ByteOfPow2(16);
    ByteOfPow2(24);
  }

  /** Reading the whole stream back gives the data, for every byte string. */
  lemma ZlibRoundTrip(data: seq<Byte>)
    ensures ReadZlib([0x78, 0x01] + Deflated(data) + BigEndian(Adler32(data), 4)) == Some(data)
  {
    hide Deflated, BlockBits, InflateBlock, BytesBits, Adler32, BigEndian, FromBigEndian;
    var check := BigEndian(Adler32(data), 4);
    var body := Deflated(data) + check;
    var bytes := [0x78, 0x01] + Deflated(data) + check;
    assert bytes[2..] == body && bytes[0] == 0x78 && bytes[1] == 0x01;
    BytesBitsConcat(Deflated(data), check);
    DeflateRoundTrip(data, BytesBits(check));
    assert body[|body| - 4..] == check;
    FourBytes();
    BigEndianRoundTrip(Adler32(data), 4);
  }
}
