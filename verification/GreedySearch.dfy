/** What the greedy search finds, said of the data alone. */
module GreedySearch {
  import opened Prelude
  import opened Deflate

  /** An earlier place with the same three bytes. */
  ghost predicate SameThree(data: seq<Byte>, p: nat, position: nat) {
    && p < position && position + 3 <= |data|
    && data[p] == data[position] && data[p + 1] == data[position + 1] && data[p + 2] == data[position + 2]
  }

  /** The places in between that have these three bytes too. */
  ghost function Between(data: seq<Byte>, p: nat, position: nat): set<nat> {
    set q: nat | p < q < position && SameThree(data, q, position)
  }

  /** In the window, and one of the 32 nearest places with these bytes. */
  ghost predicate Recent(data: seq<Byte>, p: nat, position: nat) {
    SameThree(data, p, position) && position - p <= 32768 && |Between(data, p, position)| < 32
  }

  /** The places after `p` and before `end` with this key. */
  ghost function KeyedBetween(data: seq<Byte>, p: nat, end: nat, key: seq<Byte>): set<nat> {
    set q: nat | p < q < end && q + MIN_MATCH <= |data| && Key(data, q) == key
  }

  lemma OnePlaceMore(data: seq<Byte>, p: nat, last: nat, key: seq<Byte>)
    requires p < last
    ensures |KeyedBetween(data, p, last + 1, key)| ==
      |KeyedBetween(data, p, last, key)| + if last + MIN_MATCH <= |data| && Key(data, last) == key then 1 else 0
  {
    hide Key;
    var fewer, more := KeyedBetween(data, p, last, key), KeyedBetween(data, p, last + 1, key);
    if last + MIN_MATCH <= |data| && Key(data, last) == key {
      assert more == fewer + {last};
    } else {
      assert more == fewer;
    }
  }

  /** No place is left out, and its rank counts the places nearer by. */
  lemma {:induction false} OccurrenceAt(data: seq<Byte>, end: nat, key: seq<Byte>, p: nat) returns (i: nat)
    requires p < end && p + MIN_MATCH <= |data| && Key(data, p) == key
    ensures i < |Occurrences(data, end, key)| && Occurrences(data, end, key)[i] == p
    ensures i == |KeyedBetween(data, p, end, key)|
  {
    var last: nat := end - 1;
    if p == last {
      assert KeyedBetween(data, p, end, key) == {};
      i := 0;
    } else {
      hide Key, KeyedBetween;
      i := OccurrenceAt(data, last, key, p);
      OnePlaceMore(data, p, last, key);
      if last + MIN_MATCH <= |data| && Key(data, last) == key {
        i := i + 1;
      }
    }
  }

  lemma SameThreeIsSameKey(data: seq<Byte>, p: nat, position: nat)
    ensures SameThree(data, p, position) <==> SameKey(data, p, position)
  {
    if p < position && position + MIN_MATCH <= |data| {
      var a, b := Key(data, p), Key(data, position);
      assert a == [data[p], data[p + 1], data[p + 2]];
      assert b == [data[position], data[position + 1], data[position + 2]];
      assert a == b ==> a[0] == b[0] && a[1] == b[1] && a[2] == b[2];
    }
  }

  lemma BetweenIsKeyed(data: seq<Byte>, p: nat, position: nat)
    requires position + MIN_MATCH <= |data|
    ensures Between(data, p, position) == KeyedBetween(data, p, position, Key(data, position))
  {
    hide SameThree, Key;
    forall q: nat
      ensures q in Between(data, p, position) <==> q in KeyedBetween(data, p, position, Key(data, position))
    {
      SameThreeIsSameKey(data, q, position);
    }
  }

  /** The candidates are exactly the 32 nearest places with these bytes. */
  lemma CandidatesAreTheNearest(data: seq<Byte>, position: nat, p: nat)
    ensures p in Candidates(data, position) <==> SameThree(data, p, position) && |Between(data, p, position)| < 32
  {
    hide SameThree, Between, KeyedBetween, Key, Occurrences;
    SameThreeIsSameKey(data, p, position);
    if SameKey(data, p, position) {
      var key := Key(data, position);
      var all := Occurrences(data, position, key);
      var i := OccurrenceAt(data, position, key, p);
      BetweenIsKeyed(data, p, position);
      if i < 32 {
        assert Candidates(data, position)[i] == p;
      } else {
        forall j | 0 <= j < |Candidates(data, position)|
          ensures Candidates(data, position)[j] != p
        {
          assert Candidates(data, position)[j] == all[j] > all[i];
        }
      }
    }
  }

  /** This many bytes can be copied from this place: none differs and 258 is the most. */
  ghost predicate CanCopy(data: seq<Byte>, p: nat, position: nat, n: nat) {
    p <= position && n <= 258 && Repeats(data, position, position - p, n)
  }

  /** An offer is as long as a copy from there can be. */
  lemma OfferIsLongest(data: seq<Byte>, position: nat, i: nat, n: nat)
    requires i < |Candidates(data, position)| && CanCopy(data, Candidates(data, position)[i], position, n)
    ensures n <= Offer(data, position, i).0
  {
    var offer := Offer(data, position, i);
    if offer.0 < Limit(data, position) {
      assert data[position + offer.0 - offer.1] != data[position + offer.0];
    }
  }

  lemma OfferOf(data: seq<Byte>, position: nat, i: nat)
    requires i < |Candidates(data, position)|
    ensures Candidates(data, position)[i] < position && i < |Offers(data, position)|
    ensures Offers(data, position)[i] == Offer(data, position, i)
    ensures Offer(data, position, i).1 == position - Candidates(data, position)[i]
  {
  }

  /** A recent place makes an offer, and is beaten only by a longer one or by one as long and nearer. */
  lemma RecentIsNotBetter(data: seq<Byte>, position: nat, p: nat, n: nat)
    requires position < |data| && Recent(data, p, position) && CanCopy(data, p, position, n)
    ensures var token := GreedyToken(data, position);
      token.Match? && n <= token.length && (n == token.length ==> token.distance <= position - p)
  {
    hide Offer, Offers, BestOf, GreedyToken, Candidates, Between, SameThree, Repeats;
    CandidatesAreTheNearest(data, position, p);
    var i :| 0 <= i < |Candidates(data, position)| && Candidates(data, position)[i] == p;
    OfferOf(data, position, i);
    OfferIsLongest(data, position, i, n);
    BestMatchIsLongestThenNearest(data, position);
  }

  /** The match comes from a recent place. */
  lemma MatchIsRecent(data: seq<Byte>, position: nat)
    requires position < |data| && GreedyToken(data, position).Match?
    ensures var token := GreedyToken(data, position);
      token.distance <= position && Recent(data, position - token.distance, position)
  {
    hide Offer, Offers, BestOf, Candidates, Between, SameThree, Repeats;
    var token := GreedyToken(data, position);
    BestMatchIsLongestThenNearest(data, position);
    var i :| 0 <= i < |Offers(data, position)| && Offers(data, position)[i] == (token.length, token.distance);
    OfferOf(data, position, i);
    CandidatesAreTheNearest(data, position, Candidates(data, position)[i]);
  }

  /** A recent place can at least give the three bytes. */
  lemma ThreeCanBeCopied(data: seq<Byte>, position: nat, p: nat)
    requires SameThree(data, p, position)
    ensures CanCopy(data, p, position, 3)
  {
  }

  /**
   What is emitted, in terms of the data: a match exactly when one of the 32 nearest places with the next three
   bytes is in the window; it is a copy from one of these, no such place allows a longer one, and none as near
   allows one as long.
   */
  lemma TokenIsTheBestRecentCopy(data: seq<Byte>, position: nat)
    requires position < |data|
    ensures var token := GreedyToken(data, position);
      && (token.Match? <==> exists p: nat :: Recent(data, p, position))
      && (token.Literal? ==> token.byte == data[position])
      && (token.Match? ==>
            && token.distance <= position && Recent(data, position - token.distance, position)
            && CanCopy(data, position - token.distance, position, token.length)
            && forall p: nat, n: nat :: Recent(data, p, position) && CanCopy(data, p, position, n) ==>
                 n <= token.length && (n == token.length ==> token.distance <= position - p))
  {
    hide GreedyToken, Recent, CanCopy;
    var token := GreedyToken(data, position);
    if token.Match? {
      MatchIsRecent(data, position);
      MatchCanBeCopied(data, position);
    }
    forall p: nat | Recent(data, p, position)
      ensures token.Match?
    {
      RecentHasThree(data, position, p);
      RecentIsNotBetter(data, position, p, 3);
    }
    forall p: nat, n: nat | Recent(data, p, position) && CanCopy(data, p, position, n)
      ensures token.Match? && n <= token.length && (n == token.length ==> token.distance <= position - p)
    {
      RecentIsNotBetter(data, position, p, n);
    }
  }

  lemma RecentHasThree(data: seq<Byte>, position: nat, p: nat)
    requires Recent(data, p, position)
    ensures CanCopy(data, p, position, 3)
  {
    ThreeCanBeCopied(data, position, p);
  }

  lemma MatchCanBeCopied(data: seq<Byte>, position: nat)
    requires position < |data| && GreedyToken(data, position).Match?
    ensures var token := GreedyToken(data, position);
      token.distance <= position && CanCopy(data, position - token.distance, position, token.length)
  {
    hide BestMatch, Repeats;
  }
}
