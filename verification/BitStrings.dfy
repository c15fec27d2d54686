/** Numbers as strings of bits, in the two orders DEFLATE uses (section 3.1.1 of RFC 1951). */
module BitStrings {
  import opened Prelude

  function Pow2(n: nat): (r: nat)
    ensures r > 0
  {
    if n == 0 then 1 else 2 * Pow2(n - 1)
  }

  /** The low `n` bits of `v`, least significant first. */
  function LsbFirst(v: nat, n: nat): (bits: seq<bool>)
    ensures |bits| == n
  {
    if n == 0 then [] else [v % 2 == 1] + LsbFirst(v / 2, n - 1)
  }

  /** The low `n` bits of `v`, most significant first. */
  function MsbFirst(v: nat, n: nat): (bits: seq<bool>)
    ensures |bits| == n
  {
    if n == 0 then [] else MsbFirst(v / 2, n - 1) + [v % 2 == 1]
  }

  function FromLsb(bits: seq<bool>): (v: nat)
    ensures v < Pow2(|bits|)
  {
    if bits == [] then 0 else (if bits[0] then 1 else 0) + 2 * FromLsb(bits[1..])
  }

  function FromMsb(bits: seq<bool>): (v: nat)
    ensures v < Pow2(|bits|)
  {
    if bits == [] then 0
    else 2 * FromMsb(bits[..|bits| - 1]) + (if bits[|bits| - 1] then 1 else 0)
  }

  lemma {:induction false} LsbRoundTrip(v: nat, n: nat)
    requires v < Pow2(n)
    ensures FromLsb(LsbFirst(v, n)) == v
  {
    if n > 0 {
      LsbRoundTrip(v / 2, n - 1);
      assert LsbFirst(v, n)[1..] == LsbFirst(v / 2, n - 1);
    }
  }

  lemma {:induction false} MsbRoundTrip(v: nat, n: nat)
    requires v < Pow2(n)
    ensures FromMsb(MsbFirst(v, n)) == v
  {
    if n > 0 {
      MsbRoundTrip(v / 2, n - 1);
      assert MsbFirst(v, n)[..n - 1] == MsbFirst(v / 2, n - 1);
    }
  }

  lemma {:induction false} LsbFromLsb(bits: seq<bool>)
    ensures LsbFirst(FromLsb(bits), |bits|) == bits
  {
    if bits != [] {
      LsbFromLsb(bits[1..]);
      assert bits == [bits[0]] + bits[1..];
    }
  }

  /** `v >> n`: halved `n` times. */
  function ShiftRight(v: nat, n: nat): nat {
    if n == 0 then v else ShiftRight(v / 2, n - 1)
  }

  lemma {:induction false} ShiftOnceMore(v: nat, n: nat)
    ensures ShiftRight(v, n + 1) == ShiftRight(v, n) / 2
  {
    if n > 0 {
      ShiftOnceMore(v / 2, n - 1);
    }
  }

  /** One more low bit, written after the ones below it. */
  lemma {:induction false} LsbAppend(v: nat, n: nat)
    ensures LsbFirst(v, n + 1) == LsbFirst(v, n) + [ShiftRight(v, n) % 2 == 1]
  {
    if n > 0 {
      LsbAppend(v / 2, n - 1);
    }
  }

  /** The bits of whole bytes, each least significant bit first. */
  function BytesBits(bytes: seq<Byte>): (bits: seq<bool>)
    ensures |bits| == 8 * |bytes|
  {
    if bytes == [] then [] else LsbFirst(bytes[0], 8) + BytesBits(bytes[1..])
  }

  /** The bytes that carry `bits`, the last one filled up with zero bits. */
  function Pack(bits: seq<bool>): (bytes: seq<Byte>)
    ensures |bytes| == (|bits| + 7) / 8
  {
    if bits == [] then []
    else if |bits| < 8 then Pow2At8(); PowMonotone(|bits|, 8); [FromLsb(bits)]
    else Pow2At8(); [FromLsb(bits[..8])] + Pack(bits[8..])
  }

  lemma Pow2At8()
    ensures Pow2(8) == 256
  {
    assert Pow2(4) == 16;
  }

  lemma {:induction false} PowMonotone(m: nat, n: nat)
    requires m <= n
    ensures Pow2(m) <= Pow2(n)
  {
    if m < n {
      PowMonotone(m, n - 1);
    }
  }

  function Zeros(n: nat): (bits: seq<bool>)
    ensures |bits| == n
  {
    seq(n, _ => false)
  }

  lemma {:induction false} BytesBitsAppend(bytes: seq<Byte>, last: Byte)
    ensures BytesBits(bytes + [last]) == BytesBits(bytes) + LsbFirst(last, 8)
  {
    hide LsbFirst;
    if bytes == [] {
      BytesBitsCons(last, []);
      assert bytes + [last] == [last] + [];
    } else {
      BytesBitsAppend(bytes[1..], last);
      BytesBitsCons(bytes[0], bytes[1..] + [last]);
      assert bytes + [last] == [bytes[0]] + (bytes[1..] + [last]);
    }
  }

  lemma BytesBitsCons(first: Byte, rest: seq<Byte>)
    ensures BytesBits([first] + rest) == LsbFirst(first, 8) + BytesBits(rest)
  {
    hide LsbFirst;
    assert ([first] + rest)[1..] == rest;
  }

  lemma PackStep(head: seq<bool>, tail: seq<bool>)
    requires |head| == 8
    ensures FromLsb(head) < 256
    ensures Pack(head + tail) == [FromLsb(head) as Byte] + Pack(tail)
  {
    Pow2At8();
    var bits := head + tail;
    assert bits[..8] == head && bits[8..] == tail;
  }

  lemma ByteRoundTrip(byte: Byte)
    ensures |LsbFirst(byte, 8)| == 8 && FromLsb(LsbFirst(byte, 8)) == byte
  {
    Pow2At8();
    LsbRoundTrip(byte, 8);
  }

  /** Whole bytes in front are packed as they are. */
  lemma {:induction false} PackBytes(bytes: seq<Byte>, tail: seq<bool>)
    ensures Pack(BytesBits(bytes) + tail) == bytes + Pack(tail)
  {
    hide Pack, LsbFirst, FromLsb;
    if bytes == [] {
      assert BytesBits(bytes) + tail == tail;
    } else {
      var head := LsbFirst(bytes[0], 8);
      var rest := BytesBits(bytes[1..]);
      assert BytesBits(bytes) + tail == head + (rest + tail);
      PackBytes(bytes[1..], tail);
      ByteRoundTrip(bytes[0]);
      PackStep(head, rest + tail);
      assert bytes == [bytes[0]] + bytes[1..];
    }
  }

  lemma {:induction false} LsbPad(v: nat, n: nat, m: nat)
    requires v < Pow2(n)
    ensures LsbFirst(v, n + m) == LsbFirst(v, n) + Zeros(m)
  {
    if n > 0 {
      LsbPad(v / 2, n - 1, m);
    } else if m > 0 {
      LsbPad(v, 0, m - 1);
      assert [false] + Zeros(m - 1) == Zeros(m);
    }
  }

  /** A last, unfinished byte read back: its bits and zeros up to eight. */
  lemma UnpackTail(bits: seq<bool>, n: nat)
    requires |bits| <= n == 8
    ensures FromLsb(bits) < 256
    ensures LsbFirst(FromLsb(bits), n) == bits + Zeros(n - |bits|)
  {
    Pow2At8();
    PowMonotone(|bits|, n);
    LsbPad(FromLsb(bits), |bits|, n - |bits|);
    LsbFromLsb(bits);
  }

  /** Reading packed bytes back gives the bits and then only padding. */
  lemma {:induction false} UnpackPack(bits: seq<bool>)
    ensures BytesBits(Pack(bits)) == bits + Zeros(8 * |Pack(bits)| - |bits|)
  {
    hide Pack, LsbFirst, FromLsb;
    if bits == [] {
      PackNothing();
    } else if |bits| < 8 {
      UnpackTail(bits, 8);
      PackShort(bits);
      BytesBitsCons(FromLsb(bits), []);
    } else {
      var head, tail := bits[..8], bits[8..];
      UnpackPack(tail);
      UnpackTail(head, 8);
      PackStep(head, tail);
      BytesBitsCons(FromLsb(head), Pack(tail));
      assert bits == head + tail;
    }
  }

  lemma PackNothing()
    ensures Pack([]) == []
  {
  }

  lemma PackShort(bits: seq<bool>)
    requires 0 < |bits| < 8
    ensures FromLsb(bits) < 256 && Pack(bits) == [FromLsb(bits)]
  {
    hide FromLsb;
    Pow2At8();
    PowMonotone(|bits|, 8);
  }

  // ----- big-endian numbers -----

  /** The low `count` base-256 digits of `n`, most significant first. */
  function BigEndian(n: nat, count: nat): (bytes: seq<Byte>)
    ensures |bytes| == count
  {
    if count == 0 then []
    else
      var last: nat := n % 256;
      BigEndian(n / 256, count - 1) + [last]
  }

  function FromBigEndian(bytes: seq<Byte>): nat {
    if bytes == [] then 0 else 256 * FromBigEndian(bytes[..|bytes| - 1]) + bytes[|bytes| - 1]
  }

  lemma {:induction false} BigEndianRoundTrip(n: nat, count: nat)
    requires n < Pow2(8 * count)
    ensures FromBigEndian(BigEndian(n, count)) == n
  {
    if count > 0 {
      ByteOfPow2(8 * (count - 1));
      BigEndianRoundTrip(n / 256, count - 1);
      assert BigEndian(n, count)[..count - 1] == BigEndian(n / 256, count - 1);
    }
  }

  lemma ByteOfPow2(n: nat)
    ensures Pow2(n + 8) == 256 * Pow2(n)
  {
    assert Pow2(n + 2) == 4 * Pow2(n);
    assert Pow2(n + 4) == 4 * Pow2(n + 2);
    assert Pow2(n + 6) == 4 * Pow2(n + 4);
  }
}
