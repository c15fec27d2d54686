/** The encoder as it runs: the bit sink, the chain index and the loop of `_deflate`. */
module Encoder {
  import opened Prelude
  import opened BitStrings
  import opened Deflate

  /**
   A DEFLATE bit sink. Shifts and masks of the source are quotients and remainders here, and
   setting a clear bit of the accumulator is adding its weight.
   */
  class Bits {
    var out: seq<Byte>
    var acc: nat
    var used: nat

    ghost predicate Valid()
      reads this
    {
      used < 8 && acc < Pow2(used)
    }

    /** Every bit written so far. */
    ghost function Contents(): seq<bool>
      reads this
    {
      BytesBits(out) + LsbFirst(acc, used)
    }

    constructor ()
      ensures Valid() && Contents() == []
    {
      out, acc, used := [], 0, 0;
    }

    /** One pass of the loop in `value`. */
    method Put(bit: bool)
      requires Valid()
      modifies this
      ensures Valid() && Contents() == old(Contents()) + [bit]
    {
      PutBit(bit);
      if used == 8 {
        Flush();
      }
    }

    method PutBit(bit: bool)
      requires Valid()
      modifies this`acc, this`used
      ensures used <= 8 && acc < Pow2(used) && Contents() == old(Contents()) + [bit]
    {
      LsbWithTop(acc, used, bit);
      hide BytesBits, LsbFirst;
      acc := acc + (if bit then Pow2(used) else 0);
      used := used + 1;
    }

    /** A full accumulator becomes a byte. */
    method Flush()
      requires used == 8 && acc < Pow2(8)
      modifies this
      ensures Valid() && Contents() == old(Contents())
    {
      hide BytesBits, LsbFirst;
      Pow2At8();
      FlushKeepsBits(out, acc);
      out := out + [acc];
      acc := 0;
      used := 0;
    }

    /** Appends the low bits of a number, from the lowest up. */
    method Value(value: nat, count: nat)
      requires Valid()
      modifies this
      ensures Valid() && Contents() == old(Contents()) + LsbFirst(value, count)
    {
      for index := 0 to count
        invariant Valid() && Contents() == old(Contents()) + LsbFirst(value, index)
      {
        LsbAppend(value, index);
        Put(ShiftRight(value, index) % 2 == 1);
      }
    }

    /** Appends a code from its highest bit down, as RFC 1951 packs Huffman codes. */
    method Code(code: nat, count: nat)
      requires Valid()
      modifies this
      ensures Valid() && Contents() == old(Contents()) + MsbFirst(code, count)
    {
      hide MsbFirst, Pow2, Contents, Valid;
      var index := count;
      MsbNone(code, count);
      while index > 0
        invariant 0 <= index <= count
        invariant Valid() && Contents() == old(Contents()) + MsbFirst(ShiftRight(code, index), count - index)
      {
        index := index - 1;
        var bit := ShiftRight(code, index) % 2;
        MsbNext(code, index, count);
        Value(bit, 1);
      }
      assert ShiftRight(code, index) == code by {
        MsbNone(code, 0);
      }
    }

    /** The bytes, the last one filled up with zero bits. */
    method Finish() returns (bytes: seq<Byte>)
      requires Valid()
      modifies this
      ensures Valid() && bytes == Pack(old(Contents())) == out && used == 0
    {
      PackBytes(out, LsbFirst(acc, used));
      if used != 0 {
        LsbRoundTrip(acc, used);
        Pow2At8();
        PowMonotone(used, 8);
        out := out + [acc];
        acc := 0;
        used := 0;
      }
      return out;
    }
  }

  lemma MsbNone(code: nat, count: nat)
    ensures MsbFirst(ShiftRight(code, count), 0) == []
    ensures ShiftRight(code, 0) == code
  {
  }

  lemma MsbNext(code: nat, index: nat, count: nat)
    requires index < count
    ensures MsbFirst(ShiftRight(code, index), count - index)
         == MsbFirst(ShiftRight(code, index + 1), count - (index + 1)) + LsbFirst(ShiftRight(code, index) % 2, 1)
  {
    ShiftOnceMore(code, index);
    var bit := ShiftRight(code, index) % 2;
    assert LsbFirst(bit, 1) == [bit == 1] + LsbFirst(bit / 2, 0);
  }

  lemma FlushKeepsBits(out: seq<Byte>, acc: Byte)
    ensures BytesBits(out + [acc]) + LsbFirst(0, 0) == BytesBits(out) + LsbFirst(acc, 8)
  {
    BytesBitsAppend(out, acc);
  }

  lemma {:induction false} LsbWithTop(v: nat, n: nat, bit: bool)
    requires v < Pow2(n)
    ensures v + (if bit then Pow2(n) else 0) < Pow2(n + 1)
    ensures LsbFirst(v + (if bit then Pow2(n) else 0), n + 1) == LsbFirst(v, n) + [bit]
  {
    if n > 0 {
      LsbWithTop(v / 2, n - 1, bit);
      assert (v + (if bit then Pow2(n) else 0)) / 2 == v / 2 + (if bit then Pow2(n - 1) else 0);
    }
  }

  // ----- the chain index -----

  type Chains = map<seq<Byte>, seq<nat>>

  function Chain(chains: Chains, key: seq<Byte>): seq<nat> {
    if key in chains then chains[key] else []
  }

  /** The index holds, for every key, the newest places before `end` that start with it. */
  ghost predicate IndexAgrees(data: seq<Byte>, chains: Chains, end: nat) {
    forall key :: Chain(chains, key) == Newest(Occurrences(data, end, key))
  }

  lemma NewestOfNewest(at: nat, s: seq<nat>)
    ensures Newest([at] + Newest(s)) == Newest([at] + s)
  {
    if |s| > MAX_CHAIN {
      assert ([at] + s[..MAX_CHAIN])[..MAX_CHAIN] == ([at] + s)[..MAX_CHAIN];
    }
  }

  /** Entering position `at` brings every chain up to date, the one of its key and all others. */
  lemma EnteringKeepsIndex(data: seq<Byte>, before: Chains, at: nat, after: Chains)
    requires IndexAgrees(data, before, at)
    requires after ==
      if at + MIN_MATCH <= |data| then before[Key(data, at) := Newest([at] + Chain(before, Key(data, at)))] else before
    ensures IndexAgrees(data, after, at + 1)
  {
    hide Newest;
    forall key
      ensures Chain(after, key) == Newest(Occurrences(data, at + 1, key))
    {
      assert Chain(before, key) == Newest(Occurrences(data, at, key));
      NewestOfNewest(at, Occurrences(data, at, key));
    }
  }

  /** The loop that enters every position of a step, also those inside a match. */
  method Remember(data: seq<Byte>, position: nat, step: nat, chains: Chains) returns (index: Chains)
    requires IndexAgrees(data, chains, position)
    ensures IndexAgrees(data, index, position + step)
  {
    hide IndexAgrees;
    index := chains;
    for offset := 0 to step
      invariant IndexAgrees(data, index, position + offset)
    {
      var at := position + offset;
      ghost var before := index;
      if at + MIN_MATCH <= |data| {
        var key := data[at..at + MIN_MATCH];
        var chain := [at] + (if key in index then index[key] else []);
        index := index[key := if |chain| > MAX_CHAIN then chain[..MAX_CHAIN] else chain];
      }
      EnteringKeepsIndex(data, before, at, index);
    }
  }

  /** Offers that are out of the window or no longer than the best so far change nothing. */
  lemma {:induction false} NothingBetterLater(offers: seq<(nat, nat)>, n: nat)
    requires n <= |offers|
    requires forall i :: n <= i < |offers| ==> offers[i].1 > WINDOW || offers[i].0 <= BestOf(offers[..n]).0
    ensures BestOf(offers) == BestOf(offers[..n])
    decreases |offers|
  {
    if n == |offers| {
      assert offers[..n] == offers;
    } else {
      var front := offers[..|offers| - 1];
      assert front[..n] == offers[..n];
      NothingBetterLater(front, n);
    }
  }

  lemma BestOfNext(offers: seq<(nat, nat)>, n: nat)
    requires n < |offers|
    ensures BestOf(offers[..n + 1]) ==
      if offers[n].1 > WINDOW || offers[n].0 <= BestOf(offers[..n]).0 then BestOf(offers[..n]) else offers[n]
  {
    assert offers[..n + 1][..n] == offers[..n];
  }

  lemma OfferAt(data: seq<Byte>, position: nat, i: nat)
    requires i < |Candidates(data, position)|
    ensures var candidate := Candidates(data, position)[i];
      SameKey(data, candidate, position)
      && Repeats(data, position, position - candidate, MIN_MATCH)
      && Offers(data, position)[i] == (MatchLength(data, candidate, position, MIN_MATCH), position - candidate)
  {
    SameKeyRepeats(data, Candidates(data, position)[i], position);
  }

  /** The search along one chain, with both of its early exits, finds what a scan of all candidates finds. */
  method SearchChain(data: seq<Byte>, position: nat, chain: seq<nat>) returns (bestLength: nat, bestDistance: nat)
    requires position + MIN_MATCH <= |data| && chain == Candidates(data, position)
    ensures (bestLength, bestDistance) == BestMatch(data, position)
  {
    hide BestOf, Offers, Offer, Candidates, MatchLength, NearestFirst, SameKey, Repeats, Descending;
    ghost var offers := Offers(data, position);
    bestLength, bestDistance := 0, 0;
    BestOfNone(offers);
    var i := 0;
    while i < |chain|
      invariant 0 <= i <= |chain|
      invariant (bestLength, bestDistance) == BestOf(offers[..i])
    {
      var candidate := chain[i];
      OfferAt(data, position, i);
      var distance := position - candidate;
      if distance > WINDOW {
        NothingNearer(data, position, i);
        return;
      }
      var length := ExtendMatch(data, candidate, position);
      BestOfNext(offers, i);
      if length > bestLength {
        bestLength, bestDistance := length, distance;
        if length == Min(MAX_MATCH, |data| - position) {
          NothingLonger(data, position, i + 1);
          return;
        }
      }
      i := i + 1;
    }
    assert offers[..i] == offers;
  }

  method LongestMatch(data: seq<Byte>, position: nat, chains: Chains) returns (bestLength: nat, bestDistance: nat)
    requires position < |data| && IndexAgrees(data, chains, position)
    ensures (bestLength, bestDistance) == BestMatch(data, position)
  {
    bestLength, bestDistance := 0, 0;
    if position + MIN_MATCH <= |data| {
      hide BestMatch, Occurrences, Newest;
      var key := data[position..position + MIN_MATCH];
      var chain := if key in chains then chains[key] else [];
      assert chain == Chain(chains, Key(data, position));
      bestLength, bestDistance := SearchChain(data, position, chain);
    }
  }

  lemma BestOfNone(offers: seq<(nat, nat)>)
    ensures BestOf(offers[..0]) == (0, 0)
  {
  }

  lemma NothingNearer(data: seq<Byte>, position: nat, n: nat)
    requires n < |Offers(data, position)| && Offers(data, position)[n].1 > WINDOW
    ensures BestMatch(data, position) == BestOf(Offers(data, position)[..n])
  {
    hide Offer, Candidates, BestOf;
    var offers := Offers(data, position);
    OffersAreNearestFirst(data, position);
    assert forall i :: n < i < |offers| ==> offers[n].1 < offers[i].1;
    NothingBetterLater(offers, n);
  }

  lemma NothingLonger(data: seq<Byte>, position: nat, n: nat)
    requires n <= |Offers(data, position)| && BestOf(Offers(data, position)[..n]).0 == Limit(data, position)
    ensures BestMatch(data, position) == BestOf(Offers(data, position)[..n])
  {
    var offers := Offers(data, position);
    assert forall i :: n <= i < |offers| ==> offers[i] == Offer(data, position, i) && offers[i].0 <= Limit(data, position);
    NothingBetterLater(offers, n);
  }

  method ExtendMatch(data: seq<Byte>, candidate: nat, position: nat) returns (length: nat)
    requires candidate < position && Repeats(data, position, position - candidate, MIN_MATCH)
    ensures length == MatchLength(data, candidate, position, MIN_MATCH)
  {
    length := MIN_MATCH;
    var limit := Min(MAX_MATCH, |data| - position);
    while length < limit && data[candidate + length] == data[position + length]
      invariant MIN_MATCH <= length <= limit
      invariant Repeats(data, position, position - candidate, length)
      invariant MatchLength(data, candidate, position, length) == MatchLength(data, candidate, position, MIN_MATCH)
    {
      length := length + 1;
    }
  }

  // ----- the block -----

  method WriteSymbol(bits: Bits, symbol: nat)
    requires bits.Valid()
    modifies bits
    ensures bits.Valid() && bits.Contents() == old(bits.Contents()) + SymbolBits(symbol)
  {
    var (code, width) := FixedCode(symbol);
    bits.Code(code, width);
  }

  method WriteLength(bits: Bits, length: nat)
    requires bits.Valid() && MIN_MATCH <= length
    modifies bits
    ensures bits.Valid() && bits.Contents() == old(bits.Contents()) + LengthBits(length)
  {
    hide LengthCode, RowFor, SymbolBits, LsbFirst, BytesBits, Pow2, Bits.Valid, Bits.Contents;
    ghost var before := bits.Contents();
    var (code, extra, width) := LengthCode(length);
    WriteSymbol(bits, code);
    if width != 0 {
      bits.Value(extra, width);
    }
    assert bits.Contents() == before + SymbolBits(code) + LsbFirst(extra, width);
  }

  method WriteDistance(bits: Bits, distance: nat)
    requires bits.Valid() && 1 <= distance
    modifies bits
    ensures bits.Valid() && bits.Contents() == old(bits.Contents()) + DistanceBits(distance)
  {
    hide DistanceCode, RowFor, MsbFirst, LsbFirst, BytesBits, Pow2, Bits.Valid, Bits.Contents;
    ghost var before := bits.Contents();
    var (code, extra, width) := DistanceCode(distance);
    bits.Code(code, 5);
    if width != 0 {
      bits.Value(extra, width);
    }
    assert bits.Contents() == before + MsbFirst(code, 5) + LsbFirst(extra, width);
  }

  method WriteMatch(bits: Bits, length: nat, distance: nat)
    requires bits.Valid() && Match(length, distance).Legal()
    modifies bits
    ensures bits.Valid() && bits.Contents() == old(bits.Contents()) + TokenBits(Match(length, distance))
  {
    hide LengthBits, DistanceBits, Bits.Valid, Bits.Contents;
    ghost var before := bits.Contents();
    WriteLength(bits, length);
    WriteDistance(bits, distance);
    assert bits.Contents() == before + LengthBits(length) + DistanceBits(distance);
  }

  lemma {:induction false} ParseBitsSnoc(tokens: seq<LegalToken>, token: LegalToken)
    ensures ParseBits(tokens + [token]) == ParseBits(tokens) + TokenBits(token)
  {
    hide TokenBits;
    if tokens == [] {
      assert [] + [token] == [token];
      assert ParseBits([token]) == TokenBits(token) + ParseBits([]);
    } else {
      ParseBitsSnoc(tokens[1..], token);
      assert (tokens + [token])[1..] == tokens[1..] + [token];
    }
  }

  /** The header and `tokens` are written, and `tokens` is the greedy parse as far as `position`. */
  ghost predicate Written(data: seq<Byte>, position: nat, tokens: seq<LegalToken>, contents: seq<bool>) {
    && position <= |data|
    && contents == BlockHeader() + ParseBits(tokens)
    && tokens + GreedyParse(data, position) == GreedyParse(data, 0)
  }

  lemma NothingWritten(data: seq<Byte>)
    ensures Written(data, 0, [], BlockHeader()) && IndexAgrees(data, map[], 0)
  {
  }

  lemma WrittenStep(data: seq<Byte>, position: nat, tokens: seq<LegalToken>, contents: seq<bool>)
    requires position < |data| && Written(data, position, tokens, contents)
    ensures var token := GreedyToken(data, position);
      Written(data, position + token.Size(), tokens + [token], contents + TokenBits(token))
  {
    hide TokenBits, ParseBits, GreedyToken, GreedyParse, BlockHeader;
    var token := GreedyToken(data, position);
    var bits := TokenBits(token);
    ParseBitsSnoc(tokens, token);
    GreedyParseNext(data, position);
    assert contents + bits == BlockHeader() + (ParseBits(tokens) + bits);
    assert tokens + GreedyParse(data, position) == tokens + [token] + GreedyParse(data, position + token.Size());
  }

  lemma GreedyParseNext(data: seq<Byte>, position: nat)
    requires position < |data|
    ensures GreedyParse(data, position) ==
      [GreedyToken(data, position)] + GreedyParse(data, position + GreedyToken(data, position).Size())
  {
    hide GreedyToken;
  }

  lemma WrittenAll(data: seq<Byte>, tokens: seq<LegalToken>, contents: seq<bool>)
    requires Written(data, |data|, tokens, contents)
    ensures contents + SymbolBits(256) == BlockBits(data)
  {
    assert tokens == GreedyParse(data, 0);
  }

  /** What one round of the loop writes: a match if the search found one, else the byte as it is. */
  method WriteToken(data: seq<Byte>, position: nat, length: nat, distance: nat, bits: Bits) returns (step: nat)
    requires position < |data| && (length, distance) == BestMatch(data, position) && bits.Valid()
    modifies bits
    ensures bits.Valid() && bits.Contents() == old(bits.Contents()) + TokenBits(GreedyToken(data, position))
    ensures step == GreedyToken(data, position).Size()
  {
    hide BestMatch, SymbolBits, LengthBits, DistanceBits, BytesBits, LsbFirst;
    ghost var token := GreedyToken(data, position);
    if length >= MIN_MATCH {
      WriteMatch(bits, length, distance);
      step := length;
    } else {
      WriteSymbol(bits, data[position]);
      step := 1;
    }
  }

  method WriteHeader() returns (bits: Bits)
    ensures fresh(bits) && bits.Valid() && bits.Contents() == BlockHeader()
  {
    bits := new Bits();
    bits.Value(1, 1);
    bits.Value(1, 2);
    assert LsbFirst(1, 1) == [true] && LsbFirst(1, 2) == [true, false];
  }

  /** One final fixed-Huffman block: exactly the bytes the greedy parse of `data` calls for. */
  method Compress(data: seq<Byte>) returns (bytes: seq<Byte>)
    ensures bytes == Deflated(data)
  {
    NothingWritten(data);
    hide Written, BlockHeader, GreedyToken, TokenBits, IndexAgrees, BestMatch, Bits.Valid, Bits.Contents, BlockBits, SymbolBits, Pack;
    var bits := WriteHeader();
    var chains: Chains := map[];
    var position := 0;
    ghost var tokens: seq<LegalToken> := [];
    while position < |data|
      invariant 0 <= position <= |data|
      invariant IndexAgrees(data, chains, position)
      invariant fresh(bits) && bits.Valid() && Written(data, position, tokens, bits.Contents())
    {
      var length, distance := LongestMatch(data, position, chains);
      WrittenStep(data, position, tokens, bits.Contents());
      tokens := tokens + [GreedyToken(data, position)];
      var step := WriteToken(data, position, length, distance, bits);
      chains := Remember(data, position, step, chains);
      position := position + step;
    }
    WrittenAll(data, tokens, bits.Contents());
    WriteSymbol(bits, 256);
    bytes := bits.Finish();
  }
}
