/** What the encoder emits, the reference decoder of RFC 1951 reads back. */
module RoundTrip {
  import opened Prelude
  import opened BitStrings
  import opened Deflate
  import opened Inflate

  // ----- the two tables are the ones of section 3.2.5 -----

  lemma SmallPowers()
    ensures Pow2(0) == 1 && Pow2(1) == 2 && Pow2(2) == 4 && Pow2(3) == 8 && Pow2(4) == 16 && Pow2(5) == 32
    ensures Pow2(6) == 64 && Pow2(7) == 128 && Pow2(8) == 256 && Pow2(9) == 512 && Pow2(10) == 1024
    ensures Pow2(11) == 2048 && Pow2(12) == 4096 && Pow2(13) == 8192
  {
    assert Pow2(3) == 8;
    assert Pow2(6) == 64;
    assert Pow2(9) == 512;
    assert Pow2(12) == 4096;
  }

  lemma LengthTableIsStandard(i: nat)
    requires i < |LENGTH_CODES|
    ensures LENGTH_CODES[i] == (257 + i, LengthBase(257 + i), LengthExtra(257 + i))
  {
    SmallPowers();
  }

  lemma DistanceRows(i: nat)
    requires i < |DISTANCE_CODES|
    ensures DISTANCE_CODES[i].0 == i
    ensures DISTANCE_CODES[i].2 == if i < 2 then 0 else i / 2 - 1
  {
  }

  lemma LowDistanceBases(i: nat)
    requires i < 15
    ensures DISTANCE_CODES[i].1 == DistanceBase(i)
  {
    SmallPowers();
  }

  lemma HighDistanceBases(i: nat)
    requires 15 <= i < |DISTANCE_CODES|
    ensures DISTANCE_CODES[i].1 == DistanceBase(i)
  {
    SmallPowers();
    DistanceRows(i);
    if i < 22 {
      assert DISTANCE_CODES[i].1 == DistanceBase(i);
    }
  }

  lemma DistanceTableIsStandard(i: nat)
    requires i < |DISTANCE_CODES|
    ensures DISTANCE_CODES[i] == (i, DistanceBase(i), DistanceExtra(i))
  {
    DistanceRows(i);
    if i < 15 {
      LowDistanceBases(i);
    } else {
      HighDistanceBases(i);
    }
  }

  lemma LengthRowsMeet(i: nat)
    requires i + 1 < |LENGTH_CODES|
    ensures LENGTH_CODES[i + 1].1 <= LENGTH_CODES[i].1 + Pow2(LENGTH_CODES[i].2)
  {
    SmallPowers();
  }

  lemma DistanceRowsMeet(i: nat)
    requires i < |DISTANCE_CODES|
    ensures (if i + 1 < |DISTANCE_CODES| then DISTANCE_CODES[i + 1].1 else WINDOW + 1)
         <= DISTANCE_CODES[i].1 + Pow2(DISTANCE_CODES[i].2)
  {
    SmallPowers();
  }

  /** A length's extra value fits the extra bits of its row. */
  lemma LengthExtraFits(length: nat)
    requires MIN_MATCH <= length <= MAX_MATCH
    ensures var (code, extra, bits) := LengthCode(length);
      257 <= code <= 285 && bits == LengthExtra(code) && LengthBase(code) + extra == length && extra < Pow2(bits)
  {
    var table := LENGTH_CODES;
    var i := LastRowAtMost(table, |table|, length);
    assert RowServes(table, i, length);
    LengthTableIsStandard(i);
    if i + 1 < |table| {
      LengthRowsMeet(i);
      assert length < table[i + 1].1;
    } else {
      assert table[28].1 == 258;
      assert Pow2(0) == 1;
    }
  }

  lemma DistanceExtraFits(distance: nat)
    requires 1 <= distance <= WINDOW
    ensures var (code, extra, bits) := DistanceCode(distance);
      code < 30 && bits == DistanceExtra(code) && DistanceBase(code) + extra == distance && extra < Pow2(bits)
  {
    var table := DISTANCE_CODES;
    var i := LastRowAtMost(table, |table|, distance);
    assert RowServes(table, i, distance);
    DistanceTableIsStandard(i);
    DistanceRowsMeet(i);
    if i + 1 < |table| {
      assert distance < table[i + 1].1;
    }
  }

  // ----- reading back one number, one symbol, one token -----

  lemma NumberRoundTrip(value: nat, n: nat, rest: seq<bool>)
    requires value < Pow2(n)
    ensures ReadNumber(LsbFirst(value, n) + rest, n) == Some((value, rest))
  {
    LsbRoundTrip(value, n);
    var bits := LsbFirst(value, n) + rest;
    assert bits[..n] == LsbFirst(value, n) && bits[n..] == rest;
  }

  lemma HalfFits(value: nat, n: nat)
    requires 0 < n && value < Pow2(n)
    ensures value / 2 < Pow2(n - 1)
  {
  }

  /** The leading `k` of `n` bits written most significant first are the high part of the number. */
  lemma {:induction false} MsbHighPart(value: nat, n: nat, k: nat)
    requires k <= n && value < Pow2(n)
    ensures FromMsb(MsbFirst(value, n)[..k]) == ShiftRight(value, n - k)
    decreases n
  {
    hide Pow2, FromMsb;
    if k == n {
      assert MsbFirst(value, n)[..n] == MsbFirst(value, n);
      MsbRoundTrip(value, n);
    } else {
      assert MsbFirst(value, n)[..k] == MsbFirst(value / 2, n - 1)[..k];
      HalfFits(value, n);
      MsbHighPart(value / 2, n - 1, k);
    }
  }

  lemma CodeHighPart(value: nat, n: nat, k: nat, rest: seq<bool>)
    requires k <= n && value < Pow2(n)
    ensures FromMsb((MsbFirst(value, n) + rest)[..k]) == ShiftRight(value, n - k)
    ensures (MsbFirst(value, n) + rest)[n..] == rest
  {
    MsbHighPart(value, n, k);
    assert (MsbFirst(value, n) + rest)[..k] == MsbFirst(value, n)[..k];
  }

  lemma SymbolRoundTrip(symbol: nat, rest: seq<bool>)
    requires symbol < 288
    ensures ReadSymbol(SymbolBits(symbol) + rest) == Some((symbol, rest))
  {
    SmallPowers();
    var (code, width) := FixedCode(symbol);
    ShiftOnceMore(code, 0);
    ShiftOnceMore(code, 1);
    CodeHighPart(code, width, 7, rest);
    if width >= 8 {
      CodeHighPart(code, width, 8, rest);
    }
    if width >= 9 {
      CodeHighPart(code, width, 9, rest);
    }
  }

  /** The fixed codes are prefix-free: no code is the beginning of another. */
  lemma FixedCodesArePrefixFree(symbol: nat, other: nat)
    requires symbol < 288 && other < 288
    requires SymbolBits(symbol) <= SymbolBits(other)
    ensures symbol == other
  {
    var rest := SymbolBits(other)[|SymbolBits(symbol)|..];
    SymbolRoundTrip(symbol, rest);
    SymbolRoundTrip(other, []);
    assert SymbolBits(symbol) + rest == SymbolBits(other) + [];
  }

  lemma LengthFieldsRoundTrip(code: nat, extra: nat, bits: nat, rest: seq<bool>)
    requires 257 <= code <= 285 && bits == LengthExtra(code) && extra < Pow2(bits)
    ensures ReadSymbol(SymbolBits(code) + LsbFirst(extra, bits) + rest) == Some((code, LsbFirst(extra, bits) + rest))
    ensures ReadLength(code, LsbFirst(extra, bits) + rest) == Some((LengthBase(code) + extra, rest))
  {
    SymbolRoundTrip(code, LsbFirst(extra, bits) + rest);
    assert SymbolBits(code) + LsbFirst(extra, bits) + rest == SymbolBits(code) + (LsbFirst(extra, bits) + rest);
    NumberRoundTrip(extra, bits, rest);
  }

  lemma DistanceFieldsRoundTrip(code: nat, extra: nat, bits: nat, rest: seq<bool>)
    requires code < 30 && bits == DistanceExtra(code) && extra < Pow2(bits)
    ensures ReadDistance(MsbFirst(code, 5) + LsbFirst(extra, bits) + rest) == Some((DistanceBase(code) + extra, rest))
  {
    var tail := LsbFirst(extra, bits) + rest;
    assert MsbFirst(code, 5) + LsbFirst(extra, bits) + rest == MsbFirst(code, 5) + tail;
    assert Pow2(5) == 32 && ShiftRight(code, 0) == code;
    hide Pow2, MsbFirst, LsbFirst, FromMsb, FromLsb, DistanceBase;
    CodeHighPart(code, 5, 5, tail);
    NumberRoundTrip(extra, bits, rest);
  }

  lemma LengthRoundTrip(length: nat, rest: seq<bool>)
    requires MIN_MATCH <= length <= MAX_MATCH
    ensures var read := ReadSymbol(LengthBits(length) + rest);
      read.Some? && 257 <= read.value.0 && ReadLength(read.value.0, read.value.1) == Some((length, rest))
  {
    hide RowFor, ReadSymbol, ReadLength, SymbolBits, LsbFirst;
    LengthExtraFits(length);
    var (code, extra, bits) := LengthCode(length);
    LengthFieldsRoundTrip(code, extra, bits, rest);
  }

  lemma DistanceRoundTrip(distance: nat, rest: seq<bool>)
    requires 1 <= distance <= WINDOW
    ensures ReadDistance(DistanceBits(distance) + rest) == Some((distance, rest))
  {
    hide RowFor, ReadDistance, MsbFirst, LsbFirst;
    DistanceExtraFits(distance);
    var (code, extra, bits) := DistanceCode(distance);
    DistanceFieldsRoundTrip(code, extra, bits, rest);
  }

  // ----- reading back a whole parse -----

  /** Every copy reaches back no further than what is already there. */
  ghost predicate InReach(tokens: seq<LegalToken>, size: nat)
  {
    tokens != [] ==>
      (tokens[0].Match? ==> tokens[0].distance <= size) && InReach(tokens[1..], size + tokens[0].Size())
  }

  function PlayToken(token: LegalToken, out: seq<Byte>): (r: seq<Byte>)
    requires token.Match? ==> token.distance <= |out|
    ensures |r| == |out| + token.Size()
  {
    match token
    case Literal(byte) => out + [byte]
    case Match(length, distance) => Replay(out, length, distance)
  }

  /** What a parse stands for: its bytes and copies played out after `out`. */
  function Play(tokens: seq<LegalToken>, out: seq<Byte>): seq<Byte>
    requires InReach(tokens, |out|)
  {
    if tokens == [] then out else Play(tokens[1..], PlayToken(tokens[0], out))
  }

  /** The decoder reads one token and does what it says. */
  lemma TokenStep(token: LegalToken, out: seq<Byte>, after: seq<bool>)
    requires token.Match? ==> token.distance <= |out|
    ensures InflateSymbols(TokenBits(token) + after, out) == InflateSymbols(after, PlayToken(token, out))
  {
    match token
    case Literal(byte) =>
      SymbolRoundTrip(byte, after);
    case Match(length, distance) =>
      hide LengthBits, DistanceBits, ReadSymbol, ReadLength, ReadDistance;
      LengthRoundTrip(length, DistanceBits(distance) + after);
      DistanceRoundTrip(distance, after);
      assert TokenBits(token) + after == LengthBits(length) + (DistanceBits(distance) + after);
  }

  lemma EndStep(out: seq<Byte>, rest: seq<bool>)
    ensures InflateSymbols(SymbolBits(END_OF_BLOCK) + rest, out) == Some((out, rest))
  {
    SymbolRoundTrip(END_OF_BLOCK, rest);
  }

  /** The decoder plays any parse it is given, whatever the parser chose. */
  lemma {:induction false} ParseRoundTrip(tokens: seq<LegalToken>, out: seq<Byte>, rest: seq<bool>)
    requires InReach(tokens, |out|)
    ensures InflateSymbols(ParseBits(tokens) + (SymbolBits(END_OF_BLOCK) + rest), out) == Some((Play(tokens, out), rest))
  {
    hide InflateSymbols, TokenBits, PlayToken, SymbolBits;
    var end := SymbolBits(END_OF_BLOCK) + rest;
    if tokens == [] {
      assert ParseBits(tokens) + end == end;
      EndStep(out, rest);
    } else {
      var after := ParseBits(tokens[1..]) + end;
      assert ParseBits(tokens) + end == TokenBits(tokens[0]) + after;
      TokenStep(tokens[0], out, after);
      ParseRoundTrip(tokens[1..], PlayToken(tokens[0], out), rest);
    }
  }

  /** A copy whose source already agrees with the data continues the data, even when it overlaps itself. */
  lemma {:induction false} ReplayContinues(data: seq<Byte>, position: nat, length: nat, distance: nat)
    requires 0 < distance <= position && Repeats(data, position, distance, length)
    ensures Replay(data[..position], length, distance) == data[..position + length]
    decreases length
  {
    if length > 0 {
      assert data[..position] + [data[position]] == data[..position + 1];
      ReplayContinues(data, position + 1, length - 1, distance);
    }
  }

  /** One greedy step reaches back into the data and continues it. */
  lemma GreedyTokenContinues(data: seq<Byte>, position: nat)
    requires position < |data|
    ensures var token := GreedyToken(data, position);
      (token.Match? ==> token.distance <= position)
      && PlayToken(token, data[..position]) == data[..position + token.Size()]
  {
    hide GreedyToken, Replay;
    var token := GreedyToken(data, position);
    if token.Match? {
      ReplayContinues(data, position, token.length, token.distance);
    }
  }

  lemma PlayCons(token: LegalToken, rest: seq<LegalToken>, out: seq<Byte>)
    requires token.Match? ==> token.distance <= |out|
    requires InReach(rest, |out| + token.Size())
    ensures InReach([token] + rest, |out|)
    ensures Play([token] + rest, out) == Play(rest, PlayToken(token, out))
  {
    assert ([token] + rest)[1..] == rest;
  }

  lemma {:induction false} GreedyParsePlays(data: seq<Byte>, position: nat)
    requires position <= |data|
    ensures InReach(GreedyParse(data, position), position)
    ensures Play(GreedyParse(data, position), data[..position]) == data
    decreases |data| - position
  {
    hide GreedyToken, PlayToken, Continues;
    if position == |data| {
      assert data[..position] == data;
    } else {
      var token := GreedyToken(data, position);
      GreedyTokenContinues(data, position);
      GreedyParsePlays(data, position + token.Size());
      PlayCons(token, GreedyParse(data, position + token.Size()), data[..position]);
    }
  }

  lemma HeaderStep(body: seq<bool>)
    ensures InflateBlock(BlockHeader() + body) == InflateSymbols(body, [])
  {
    hide InflateSymbols;
    assert (BlockHeader() + body)[3..] == body;
  }

  /**
   The encoder's law: inflating the packed block gives back exactly the data, for every byte string,
   and what is left over is only the padding of the last byte.
   */
  lemma DeflateRoundTrip(data: seq<Byte>, after: seq<bool>)
    ensures var padding := Zeros(8 * |Deflated(data)| - |BlockBits(data)|);
      |padding| < 8 && InflateBlock(BytesBits(Deflated(data)) + after) == Some((data, padding + after))
  {
    hide GreedyParse, InflateSymbols, InflateBlock, SymbolBits, ParseBits, Pack, BytesBits, BlockHeader, Zeros;
    var tokens := GreedyParse(data, 0);
    var padding := Zeros(8 * |Deflated(data)| - |BlockBits(data)|);
    UnpackPack(BlockBits(data));
    var rest := padding + after;
    var body := ParseBits(tokens) + (SymbolBits(END_OF_BLOCK) + rest);
    assert BytesBits(Deflated(data)) + after == BlockHeader() + body;
    HeaderStep(body);
    GreedyParsePlays(data, 0);
    assert data[..0] == [];
    ParseRoundTrip(tokens, [], rest);
  }

  // ----- how long the block can be -----

  lemma LengthIsCheap(length: nat)
    requires MIN_MATCH <= length <= MAX_MATCH
    ensures |LengthBits(length)| + 18 <= 9 * length
  {
    LengthExtraFits(length);
  }

  lemma DistanceIsCheap(distance: nat)
    requires 1 <= distance <= WINDOW
    ensures |DistanceBits(distance)| <= 18
  {
    DistanceExtraFits(distance);
  }

  /** A match never costs more than nine bits for each byte it stands for. */
  lemma TokenIsCheap(token: LegalToken)
    ensures |TokenBits(token)| <= 9 * token.Size()
  {
    if token.Match? {
      LengthIsCheap(token.length);
      DistanceIsCheap(token.distance);
    }
  }

  lemma {:induction false} ParseIsCheap(data: seq<Byte>, position: nat)
    requires position <= |data|
    ensures |ParseBits(GreedyParse(data, position))| <= 9 * (|data| - position)
    decreases |data| - position
  {
    hide TokenBits, GreedyToken;
    if position < |data| {
      var token := GreedyToken(data, position);
      TokenIsCheap(token);
      ParseIsCheap(data, position + token.Size());
      assert GreedyParse(data, position)[1..] == GreedyParse(data, position + token.Size());
    }
  }

  /** At worst ten bits of framing and nine for each byte, rounded up to whole bytes. */
  lemma DeflatedSize(data: seq<Byte>)
    ensures |Deflated(data)| <= (9 * |data| + 10 + 7) / 8
  {
    ParseIsCheap(data, 0);
  }
}
