/** The fixed-Huffman DEFLATE encoder of app/tool/generate_launcher_icons.py: what it emits, as functions of the data. */
module Deflate {
  import opened Prelude
  import opened BitStrings

  const WINDOW := 32768
  const MIN_MATCH := 3
  const MAX_MATCH := 258
  const MAX_CHAIN := 32

  /** One row of a code table: (code, base, extra bits). */
  type Row = (nat, nat, nat)

  const LENGTH_CODES: seq<Row> := [
    (257, 3, 0), (258, 4, 0), (259, 5, 0), (260, 6, 0), (261, 7, 0),
    (262, 8, 0), (263, 9, 0), (264, 10, 0), (265, 11, 1), (266, 13, 1),
    (267, 15, 1), (268, 17, 1), (269, 19, 2), (270, 23, 2), (271, 27, 2),
    (272, 31, 2), (273, 35, 3), (274, 43, 3), (275, 51, 3), (276, 59, 3),
    (277, 67, 4), (278, 83, 4), (279, 99, 4), (280, 115, 4), (281, 131, 5),
    (282, 163, 5), (283, 195, 5), (284, 227, 5), (285, 258, 0)]

  const DISTANCE_CODES: seq<Row> := [
    (0, 1, 0), (1, 2, 0), (2, 3, 0), (3, 4, 0), (4, 5, 1), (5, 7, 1),
    (6, 9, 2), (7, 13, 2), (8, 17, 3), (9, 25, 3), (10, 33, 4), (11, 49, 4),
    (12, 65, 5), (13, 97, 5), (14, 129, 6), (15, 193, 6), (16, 257, 7),
    (17, 385, 7), (18, 513, 8), (19, 769, 8), (20, 1025, 9), (21, 1537, 9),
    (22, 2049, 10), (23, 3073, 10), (24, 4097, 11), (25, 6145, 11),
    (26, 8193, 12), (27, 12289, 12), (28, 16385, 13), (29, 24577, 13)]

  /** The fixed literal/length code of a symbol: (code, bit count). */
  function FixedCode(symbol: nat): (nat, nat) {
    if symbol < 144 then (48 + symbol, 8)
    else if symbol < 256 then (400 + symbol - 144, 9)
    else if symbol < 280 then (symbol - 256, 7)
    else (192 + symbol - 280, 8)
  }

  /** The last of the first `n` rows whose base is at most `value`. */
  function LastRowAtMost(table: seq<Row>, n: nat, value: nat): (i: nat)
    requires 0 < n <= |table| && table[0].1 <= value
    ensures i < n && table[i].1 <= value
    ensures forall j :: i < j < n ==> value < table[j].1
  {
    if table[n - 1].1 <= value then n - 1 else LastRowAtMost(table, n - 1, value)
  }

  /** The row that serves `value`: the source walks the table from its end. */
  function RowFor(table: seq<Row>, value: nat): (row: Row)
    requires table != [] && table[0].1 <= value
    ensures row.1 <= value
    ensures exists i: nat :: RowServes(table, i, value) && row == table[i]
  {
    assert RowServes(table, LastRowAtMost(table, |table|, value), value);
    table[LastRowAtMost(table, |table|, value)]
  }

  ghost predicate RowServes(table: seq<Row>, i: nat, value: nat) {
    i < |table| && table[i].1 <= value && (i + 1 < |table| ==> value < table[i + 1].1)
  }

  /** (code, extra value, extra bits) */
  function LengthCode(length: nat): (nat, nat, nat)
    requires MIN_MATCH <= length
  {
    var row := RowFor(LENGTH_CODES, length);
    (row.0, length - row.1, row.2)
  }

  function DistanceCode(distance: nat): (nat, nat, nat)
    requires 1 <= distance
  {
    var row := RowFor(DISTANCE_CODES, distance);
    (row.0, distance - row.1, row.2)
  }

  // ----- what is emitted -----

  /** One step of the parse: a byte as it is, or a copy of `length` bytes from `distance` back. */
  datatype Token = Literal(byte: Byte) | Match(length: nat, distance: nat) {
    predicate Legal() {
      Match? ==> MIN_MATCH <= length <= MAX_MATCH && 1 <= distance <= WINDOW
    }

    function Size(): (n: nat)
      requires Legal()
      ensures n > 0
    {
      if Literal? then 1 else length
    }
  }

  type LegalToken = t: Token | t.Legal() witness Literal(0)

  function SymbolBits(symbol: nat): seq<bool> {
    MsbFirst(FixedCode(symbol).0, FixedCode(symbol).1)
  }

  function LengthBits(length: nat): seq<bool>
    requires MIN_MATCH <= length
  {
    var (code, extra, bits) := LengthCode(length);
    SymbolBits(code) + LsbFirst(extra, bits)
  }

  function DistanceBits(distance: nat): seq<bool>
    requires 1 <= distance
  {
    var (code, extra, bits) := DistanceCode(distance);
    MsbFirst(code, 5) + LsbFirst(extra, bits)
  }

  function TokenBits(token: LegalToken): seq<bool>
  {
    match token
    case Literal(byte) => SymbolBits(byte)
    case Match(length, distance) => LengthBits(length) + DistanceBits(distance)
  }

  function ParseBits(tokens: seq<LegalToken>): seq<bool>
  {
    if tokens == [] then [] else TokenBits(tokens[0]) + ParseBits(tokens[1..])
  }

  // ----- the greedy parse, by a plain backwards scan -----

  function Key(data: seq<Byte>, at: nat): seq<Byte>
    requires at + MIN_MATCH <= |data|
  {
    data[at..at + MIN_MATCH]
  }

  /** Two places, the first the earlier one, that start with the same three bytes. */
  ghost predicate SameKey(data: seq<Byte>, candidate: nat, position: nat) {
    && candidate < position
    && position + MIN_MATCH <= |data|
    && Key(data, candidate) == Key(data, position)
  }

  ghost predicate Descending(s: seq<nat>) {
    forall i, j :: 0 <= i < j < |s| ==> s[i] > s[j]
  }

  /** Every position before `end` that starts with `key`, nearest first. */
  function Occurrences(data: seq<Byte>, end: nat, key: seq<Byte>): (r: seq<nat>)
    ensures forall i :: 0 <= i < |r| ==> r[i] < end && r[i] + MIN_MATCH <= |data| && Key(data, r[i]) == key
    ensures Descending(r)
  {
    if end == 0 then []
    else
      var rest := Occurrences(data, end - 1, key);
      if end - 1 + MIN_MATCH <= |data| && Key(data, end - 1) == key then [end - 1] + rest else rest
  }

  function Newest<T>(s: seq<T>): (r: seq<T>) {
    if |s| <= MAX_CHAIN then s else s[..MAX_CHAIN]
  }

  /** The earlier positions the search looks at. */
  function Candidates(data: seq<Byte>, position: nat): (r: seq<nat>)
    ensures forall i :: 0 <= i < |r| ==> SameKey(data, r[i], position)
    ensures Descending(r)
  {
    if position + MIN_MATCH <= |data| then Newest(Occurrences(data, position, Key(data, position))) else []
  }

  function Limit(data: seq<Byte>, position: nat): int {
    Min(MAX_MATCH, |data| - position)
  }

  /** The `n` bytes from `position` on repeat what stands `distance` before them. */
  ghost predicate Repeats(data: seq<Byte>, position: nat, distance: nat, n: nat) {
    && distance <= position && position + n <= |data|
    && forall j :: position <= j < position + n ==> data[j] == data[j - distance]
  }

  /** How far the data at `candidate` and at `position` agree, at least `length`, up to the limit. */
  function MatchLength(data: seq<Byte>, candidate: nat, position: nat, length: nat): (n: nat)
    requires candidate < position && length <= Limit(data, position)
    requires Repeats(data, position, position - candidate, length)
    ensures length <= n <= Limit(data, position)
    ensures Repeats(data, position, position - candidate, n)
    ensures n < Limit(data, position) ==> data[candidate + n] != data[position + n]
    decreases Limit(data, position) - length
  {
    if length < Limit(data, position) && data[candidate + length] == data[position + length]
    then MatchLength(data, candidate, position, length + 1)
    else length
  }

  lemma SameKeyRepeats(data: seq<Byte>, candidate: nat, position: nat)
    requires SameKey(data, candidate, position)
    ensures Repeats(data, position, position - candidate, MIN_MATCH)
  {
  }

  /** What candidate `i` offers: (length, distance). */
  function Offer(data: seq<Byte>, position: nat, i: nat): (offer: (nat, nat))
    requires i < |Candidates(data, position)|
    ensures MIN_MATCH <= offer.0 <= Limit(data, position) && 1 <= offer.1 <= position
    ensures Repeats(data, position, offer.1, offer.0)
    ensures offer.0 < Limit(data, position) ==> data[position - offer.1 + offer.0] != data[position + offer.0]
  {
    var candidate := Candidates(data, position)[i];
    assert SameKey(data, candidate, position);
    SameKeyRepeats(data, candidate, position);
    (MatchLength(data, candidate, position, MIN_MATCH), position - candidate)
  }

  /** The offers of all candidates, nearest first. */
  function Offers(data: seq<Byte>, position: nat): (offers: seq<(nat, nat)>)
    ensures |offers| == |Candidates(data, position)|
    ensures forall i :: 0 <= i < |offers| ==> offers[i] == Offer(data, position, i)
  {
    seq(|Candidates(data, position)|, i requires 0 <= i < |Candidates(data, position)| => Offer(data, position, i))
  }

  /** The best offer inside the window; (0, 0) when there is none. */
  function BestOf(offers: seq<(nat, nat)>): (best: (nat, nat)) {
    if offers == [] then (0, 0)
    else
      var best := BestOf(offers[..|offers| - 1]);
      var offer := offers[|offers| - 1];
      if offer.1 > WINDOW || offer.0 <= best.0 then best else offer
  }

  function BestMatch(data: seq<Byte>, position: nat): (nat, nat) {
    BestOf(Offers(data, position))
  }

  /** Offers of some length, each one further back than those before it. */
  ghost predicate NearestFirst(offers: seq<(nat, nat)>) {
    && (forall i :: 0 <= i < |offers| ==> offers[i].0 > 0)
    && (forall i, j :: 0 <= i < j < |offers| ==> offers[i].1 < offers[j].1)
  }

  /** (0, 0) exactly when no offer is in the window, else an offer that is. */
  ghost predicate IsAnOffer(offers: seq<(nat, nat)>, best: (nat, nat)) {
    if best.0 == 0
    then best.1 == 0 && forall i :: 0 <= i < |offers| ==> offers[i].1 > WINDOW
    else exists i :: 0 <= i < |offers| && offers[i] == best && best.1 <= WINDOW
  }

  /** No offer in the window is longer, and none as long is nearer. */
  ghost predicate NoneBetter(offers: seq<(nat, nat)>, best: (nat, nat)) {
    forall i :: 0 <= i < |offers| ==>
      offers[i].1 > WINDOW || offers[i].0 < best.0 || (offers[i].0 == best.0 && best.1 <= offers[i].1)
  }

  lemma {:induction false} BestOfIsBest(offers: seq<(nat, nat)>)
    requires NearestFirst(offers)
    ensures IsAnOffer(offers, BestOf(offers))
    ensures NoneBetter(offers, BestOf(offers))
  {
    if offers != [] {
      BestOfIsBest(offers[..|offers| - 1]);
      var best := BestOf(offers[..|offers| - 1]);
      if best.0 > 0 {
        var i :| 0 <= i < |offers| - 1 && offers[..|offers| - 1][i] == best;
        assert offers[i] == best;
      }
    }
  }

  lemma OffersAreNearestFirst(data: seq<Byte>, position: nat)
    ensures NearestFirst(Offers(data, position))
  {
  }

  /** A match found earlier in the data, in the window, that really continues it. */
  ghost predicate Continues(data: seq<Byte>, position: nat, length: nat, distance: nat) {
    && MIN_MATCH <= length <= Limit(data, position)
    && 1 <= distance <= Min(WINDOW, position)
    && Repeats(data, position, distance, length)
  }

  lemma BestMatchContinues(data: seq<Byte>, position: nat)
    ensures BestMatch(data, position).0 > 0 ==>
      Continues(data, position, BestMatch(data, position).0, BestMatch(data, position).1)
  {
    hide Offer, Candidates, BestOf, Offers;
    var offers := Offers(data, position);
    OffersAreNearestFirst(data, position);
    BestOfIsBest(offers);
    var best := BestMatch(data, position);
    if best.0 > 0 {
      var i :| 0 <= i < |offers| && offers[i] == best && best.1 <= WINDOW;
      assert best == Offer(data, position, i);
    }
  }

  function GreedyToken(data: seq<Byte>, position: nat): (token: LegalToken)
    requires position < |data|
    ensures position + token.Size() <= |data|
    ensures token.Match? ==> Continues(data, position, token.length, token.distance)
    ensures token.Literal? ==> token.byte == data[position]
  {
    BestMatchContinues(data, position);
    var (length, distance) := BestMatch(data, position);
    if length >= MIN_MATCH then Match(length, distance) else Literal(data[position])
  }

  function GreedyParse(data: seq<Byte>, position: nat): (tokens: seq<LegalToken>)
    requires position <= |data|
    decreases |data| - position
  {
    if position == |data| then []
    else
      var token := GreedyToken(data, position);
      [token] + GreedyParse(data, position + token.Size())
  }

  function BlockHeader(): seq<bool> {
    [true, true, false]
  }

  /** The block as bits: BFINAL = 1, BTYPE = 01, the parse, end of block. */
  function BlockBits(data: seq<Byte>): seq<bool> {
    BlockHeader() + ParseBits(GreedyParse(data, 0)) + SymbolBits(256)
  }

  function Deflated(data: seq<Byte>): seq<Byte> {
    Pack(BlockBits(data))
  }

  /**
   The promise of the search: a match is emitted exactly when one of the candidates is in the
   window, and it is the longest any of them offers, the nearest of the longest.
   */
  lemma BestMatchIsLongestThenNearest(data: seq<Byte>, position: nat)
    requires position < |data|
    ensures GreedyToken(data, position).Match? <==>
      exists i :: 0 <= i < |Offers(data, position)| && Offers(data, position)[i].1 <= WINDOW
    ensures GreedyToken(data, position).Match? ==>
      var best := (GreedyToken(data, position).length, GreedyToken(data, position).distance);
      IsAnOffer(Offers(data, position), best) && NoneBetter(Offers(data, position), best)
  {
    hide Offer, Candidates, BestOf, Offers;
    OffersAreNearestFirst(data, position);
    BestOfIsBest(Offers(data, position));
    BestMatchContinues(data, position);
  }
}
