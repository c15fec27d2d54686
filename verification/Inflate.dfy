/**
 A reference decoder for one final block with fixed Huffman codes, written from RFC 1951 alone:
 section 3.2.3 (block header), 3.2.5 (lengths and distances), 3.2.6 (fixed codes).
 It shares no table with the encoder.
 */
module Inflate {
  import opened Prelude
  import opened BitStrings

  const END_OF_BLOCK := 256

  /** `n` bits that hold a number, least significant first. */
  function ReadNumber(bits: seq<bool>, n: nat): (r: Option<(nat, seq<bool>)>)
    ensures r.Some? ==> |r.value.1| == |bits| - n
  {
    if |bits| < n then None else Some((FromLsb(bits[..n]), bits[n..]))
  }

  /** The next literal/length symbol: the four rows of the table in section 3.2.6. */
  function ReadSymbol(bits: seq<bool>): (r: Option<(nat, seq<bool>)>)
    ensures r.Some? ==> r.value.0 < 288 && |r.value.1| < |bits|
  {
    if |bits| < 7 then None else
    var seven := FromMsb(bits[..7]);
    if seven <= 23 then Some((256 + seven, bits[7..])) else
    if |bits| < 8 then None else
    var eight := FromMsb(bits[..8]);
    if 48 <= eight <= 191 then Some((eight - 48, bits[8..]))
    else if 192 <= eight <= 199 then Some((280 + eight - 192, bits[8..])) else
    if |bits| < 9 then None else
    var nine := FromMsb(bits[..9]);
    if 400 <= nine <= 511 then Some((144 + nine - 400, bits[9..])) else None
  }

  /** Section 3.2.5: how many extra bits a length symbol has, and its shortest length. */
  function LengthExtra(symbol: nat): nat
    requires 257 <= symbol <= 285
  {
    if symbol <= 264 || symbol == 285 then 0 else (symbol - 261) / 4
  }

  function LengthBase(symbol: nat): nat
    requires 257 <= symbol <= 285
  {
    if symbol <= 264 then symbol - 254
    else if symbol == 285 then 258
    else 3 + (4 + (symbol - 261) % 4) * Pow2(LengthExtra(symbol))
  }

  /** Section 3.2.5: the same for distance codes. */
  function DistanceExtra(code: nat): nat
    requires code < 30
  {
    if code < 2 then 0 else code / 2 - 1
  }

  function DistanceBase(code: nat): nat
    requires code < 30
  {
    if code < 2 then code + 1 else 1 + (2 + code % 2) * Pow2(DistanceExtra(code))
  }

  function ReadLength(symbol: nat, bits: seq<bool>): (r: Option<(nat, seq<bool>)>)
    requires 257 <= symbol
    ensures r.Some? ==> |r.value.1| <= |bits|
  {
    if symbol > 285 then None else
    var (extra, rest) :- ReadNumber(bits, LengthExtra(symbol));
    Some((LengthBase(symbol) + extra, rest))
  }

  /** A distance: five bits of code, most significant first, then its extra bits. */
  function ReadDistance(bits: seq<bool>): (r: Option<(nat, seq<bool>)>)
    ensures r.Some? ==> |r.value.1| < |bits|
  {
    if |bits| < 5 then None else
    var code := FromMsb(bits[..5]);
    if code >= 30 then None else
    var (extra, rest) :- ReadNumber(bits[5..], DistanceExtra(code));
    Some((DistanceBase(code) + extra, rest))
  }

  /** Copy `length` bytes from `distance` back, one at a time, so a copy may overlap itself. */
  function Replay(out: seq<Byte>, length: nat, distance: nat): (r: seq<Byte>)
    requires 0 < distance <= |out|
    ensures |r| == |out| + length
    decreases length
  {
    if length == 0 then out else Replay(out + [out[|out| - distance]], length - 1, distance)
  }

  /** The block's symbols after its header, decoded onto `out`; what follows the block is returned. */
  function InflateSymbols(bits: seq<bool>, out: seq<Byte>): (r: Option<(seq<Byte>, seq<bool>)>)
    ensures r.Some? ==> |r.value.1| < |bits|
    decreases |bits|
  {
    var (symbol, afterSymbol) :- ReadSymbol(bits);
    if symbol < 256 then InflateSymbols(afterSymbol, out + [symbol])
    else if symbol == END_OF_BLOCK then Some((out, afterSymbol))
    else
      var (length, afterLength) :- ReadLength(symbol, afterSymbol);
      var (distance, afterDistance) :- ReadDistance(afterLength);
      if distance == 0 || distance > |out| then None
      else InflateSymbols(afterDistance, Replay(out, length, distance))
  }

  /** A whole block: BFINAL must be 1 and BTYPE must be 01. */
  function InflateBlock(bits: seq<bool>): (r: Option<(seq<Byte>, seq<bool>)>)
    ensures r.Some? ==> |r.value.1| < |bits|
  {
    if |bits| < 3 || bits[..3] != [true, true, false] then None
    else InflateSymbols(bits[3..], [])
  }
}
