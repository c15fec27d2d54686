/** Splitting prompt text into protected literals and translatable text. */
module Spans {

  const QUOTE := '"'
  const ESCAPE := '\\'

  datatype Span = Span(text: string, protected: bool)

  ghost predicate QuoteFree(text: string) {
    QUOTE !in text
  }

  /** Where a literal whose scan has come to `index` ends, and whether it was closed by a quote. */
  function Scan(text: string, index: nat): (r: (nat, bool))
    requires index <= |text|
    ensures index <= r.0 <= |text|
    ensures !r.1 ==> r.0 == |text|
    decreases |text| - index
  {
    if index == |text| then (|text|, false)
    else if text[index] == ESCAPE && index + 1 < |text| then Scan(text, index + 2)
    else if text[index] == QUOTE then (index + 1, true)
    else Scan(text, index + 1)
  }

  method LiteralEnd(text: string, start: nat) returns (end: nat)
    requires start < |text|
    ensures end == start + Scan(text[start..], 1).0
  {
    var index := start + 1;
    ghost var literal := text[start..];
    while index < |text|
      invariant start < index <= |text|
      invariant Scan(literal, 1) == Scan(literal, index - start)
      decreases |text| - index
    {
      var character := text[index];
      if character == ESCAPE && index + 1 < |text| {
        index := index + 2;
      } else {
        index := index + 1;
        if character == QUOTE {
          return index;
        }
      }
    }
    return |text|;
  }

  /** How much of the text comes before its first quote. */
  function BeforeQuote(text: string): (n: nat)
    ensures n <= |text| && QuoteFree(text[..n]) && (n < |text| ==> text[n] == QUOTE)
  {
    if text == "" || text[0] == QUOTE then 0
    else
      var n := 1 + BeforeQuote(text[1..]);
      assert text[..n] == [text[0]] + text[1..][..n - 1];
      n
  }

  function Split(text: string): seq<Span> {
    if text == "" then []
    else
      var n := BeforeQuote(text);
      if n > 0 then [Span(text[..n], false)] + Split(text[n..])
      else
        var end := Scan(text, 1).0;
        [Span(text[..end], true)] + Split(text[end..])
  }

  function Concat(spans: seq<Span>): string {
    if spans == [] then "" else spans[0].text + Concat(spans[1..])
  }

  function Literals(spans: seq<Span>): seq<string> {
    if spans == [] then []
    else if spans[0].protected then [spans[0].text] + Literals(spans[1..])
    else Literals(spans[1..])
  }

  // ----- the scanner -----

  lemma {:induction false} BeforeQuoteIs(text: string, n: nat)
    requires n <= |text| && QuoteFree(text[..n]) && (n < |text| ==> text[n] == QUOTE)
    ensures BeforeQuote(text) == n
  {
  }

  lemma SplitPlain(plain: string, rest: string)
    requires plain != "" && QuoteFree(plain) && (rest != "" ==> rest[0] == QUOTE)
    ensures Split(plain + rest) == [Span(plain, false)] + Split(rest)
  {
    var text := plain + rest;
    assert text[..|plain|] == plain && text[|plain|..] == rest;
    BeforeQuoteIs(text, |plain|);
  }

  lemma SplitLiteral(text: string)
    requires text != "" && text[0] == QUOTE
    ensures var end := Scan(text, 1).0; Split(text) == [Span(text[..end], true)] + Split(text[end..])
  {
    BeforeQuoteIs(text, 0);
  }

  method SplitSpans(text: string, preserve: bool) returns (spans: seq<Span>)
    ensures spans == if preserve then Split(text) else if text == "" then [] else [Span(text, false)]
  {
    hide Split, Scan, Flushed, QuoteFree;
    if text == "" {
      NothingToSplit();
      return [];
    }
    if !preserve {
      return [Span(text, false)];
    }
    spans := [];
    var pending := "";
    var index := 0;
    NothingPending(text);
    while index < |text|
      invariant 0 <= index <= |text| && QuoteFree(pending)
      invariant Split(text) == spans + Split(pending + text[index..])
      decreases |text| - index
    {
      if text[index] != QUOTE {
        OneMorePending(pending, text, index);
        pending := pending + [text[index]];
        index := index + 1;
      } else {
        var end := LiteralEnd(text, index);
        SplitAtLiteral(pending, text, index);
        spans := Flush(spans, pending);
        pending := "";
        spans := spans + [Span(text[index..end], true)];
        index := end;
        NothingPending(text[index..]);
      }
    }
    SplitRest(pending);
    assert pending + text[|text|..] == pending;
    spans := Flush(spans, pending);
  }

  lemma NothingPending(text: string)
    ensures QuoteFree("") && "" + text == text && text[0..] == text
  {
  }

  lemma OneMorePending(pending: string, text: string, index: nat)
    requires QuoteFree(pending) && index < |text| && text[index] != QUOTE
    ensures QuoteFree(pending + [text[index]])
    ensures pending + text[index..] == pending + [text[index]] + text[index + 1..]
  {
  }

  lemma NothingToSplit()
    ensures Split("") == []
  {
  }

  function Flushed(pending: string): seq<Span> {
    if pending == "" then [] else [Span(pending, false)]
  }

  method Flush(spans: seq<Span>, pending: string) returns (flushed: seq<Span>)
    ensures flushed == spans + Flushed(pending)
  {
    flushed := if pending == "" then spans else spans + [Span(pending, false)];
  }

  lemma SplitAtLiteral(pending: string, text: string, index: nat)
    requires index < |text| && text[index] == QUOTE && QuoteFree(pending)
    ensures var end := index + Scan(text[index..], 1).0;
      Split(pending + text[index..]) == Flushed(pending) + [Span(text[index..end], true)] + Split(text[end..])
  {
    hide Split, Scan;
    var rest := text[index..];
    SplitLiteral(rest);
    var end := index + Scan(rest, 1).0;
    assert rest[..end - index] == text[index..end] && rest[end - index..] == text[end..];
    if pending == "" {
      assert pending + rest == rest;
    } else {
      SplitPlain(pending, rest);
    }
  }

  lemma SplitRest(pending: string)
    requires QuoteFree(pending)
    ensures Split(pending) == Flushed(pending)
  {
    if pending != "" {
      SplitPlain(pending, "");
      assert pending + "" == pending;
    }
  }

  // ----- a split is a partition, and the only one of its shape -----

  lemma ConcatCons(first: Span, rest: seq<Span>)
    ensures Concat([first] + rest) == first.text + Concat(rest)
  {
    assert ([first] + rest)[1..] == rest;
  }

  lemma {:induction false} SplitIsAPartition(text: string)
    ensures Concat(Split(text)) == text
    decreases |text|
  {
    hide Scan, BeforeQuote, Concat;
    if text != "" {
      var n := BeforeQuote(text);
      var end := if n > 0 then n else Scan(text, 1).0;
      SplitIsAPartition(text[end..]);
      ConcatCons(Span(text[..end], n == 0), Split(text[end..]));
      assert text == text[..end] + text[end..];
    } else {
      NothingToSplit();
      assert Concat([]) == "" by {
        NothingToJoin();
      }
    }
  }

  lemma NothingToJoin()
    ensures Concat([]) == ""
  {
  }

  /** A literal: it opens with a quote and closes with its own end, or never closes and is the last of the text. */
  ghost predicate IsLiteral(literal: string, last: bool) {
    literal != "" && literal[0] == QUOTE && Scan(literal, 1).0 == |literal| && (last || Scan(literal, 1).1)
  }

  /** Plain runs without quotes, never two in a row; literals between them; only the last may be unterminated. */
  ghost predicate Alternating(spans: seq<Span>) {
    spans != [] ==>
      && (if spans[0].protected then IsLiteral(spans[0].text, |spans| == 1)
          else spans[0].text != "" && QuoteFree(spans[0].text) && (|spans| > 1 ==> spans[1].protected))
      && Alternating(spans[1..])
  }

  /** How many backslashes stand directly before `i`, looking back no further than `start`. */
  function Backslashes(text: string, start: nat, i: nat): nat
    requires i <= |text|
    decreases i
  {
    if i <= start || text[i - 1] != '\\' then 0 else 1 + Backslashes(text, start, i - 1)
  }

  /** A quote that no backslash escapes: an even number of them stands before it. */
  ghost predicate BareQuoteAt(text: string, start: nat, i: int) {
    start <= i < |text| && text[i] == '"' && Backslashes(text, start, i) % 2 == 0
  }

  /** Looking back from beyond an escaped character, or from beyond a plain one, is looking back from the start. */
  lemma {:induction false} LookingBack(text: string, start: nat, next: nat, i: nat)
    requires start < next <= i <= |text|
    requires next == if text[start] == '\\' then start + 2 else start + 1
    ensures Backslashes(text, start, i) % 2 == Backslashes(text, next, i) % 2
    decreases i
  {
    if i > next && text[i - 1] == '\\' {
      LookingBack(text, start, next, i - 1);
    } else if i == next && next == start + 2 && text[start + 1] == '\\' {
      assert Backslashes(text, start, start) == 0;
      assert Backslashes(text, start, start + 1) == 1;
    }
  }

  /** A literal ends after its first bare quote, and runs to the end of the text when it has none. */
  lemma {:induction false} ScanEndsAtTheFirstBareQuote(text: string, start: nat)
    requires start <= |text|
    ensures var (end, closed) := Scan(text, start);
      && (closed ==> end > start && BareQuoteAt(text, start, end - 1))
      && forall i :: start <= i < (if closed then end - 1 else end) ==> !BareQuoteAt(text, start, i)
    decreases |text| - start
  {
    if start < |text| {
      var (end, closed) := Scan(text, start);
      var next := if text[start] == '\\' then start + 2 else start + 1;
      if text[start] == '\\' && next > |text| {
        assert Scan(text, start + 1) == (|text|, false);
      } else if text[start] == '"' {
      } else {
        ScanEndsAtTheFirstBareQuote(text, next);
        forall i | next <= i < |text|
          ensures BareQuoteAt(text, start, i) <==> BareQuoteAt(text, next, i)
        {
          LookingBack(text, start, next, i);
        }
        if next == start + 2 {
          assert Backslashes(text, start, start + 1) == 1;
        }
      }
    }
  }

  /** What follows a closed literal does not change where it ends. */
  lemma {:induction false} ClosedScanIsLocal(literal: string, index: nat, rest: string)
    requires index <= |literal| && Scan(literal, index) == (|literal|, true)
    ensures Scan(literal + rest, index) == (|literal|, true)
    decreases |literal| - index
  {
    if literal[index] == ESCAPE && index + 1 < |literal| {
      ClosedScanIsLocal(literal, index + 2, rest);
    } else if literal[index] != QUOTE {
      ClosedScanIsLocal(literal, index + 1, rest);
    }
  }

  lemma {:induction false} ScanOfBeginning(text: string, index: nat)
    requires index <= |text| && Scan(text, index).1
    ensures var end := Scan(text, index).0; index <= end && Scan(text[..end], index) == (end, true)
    decreases |text| - index
  {
    if text[index] == ESCAPE && index + 1 < |text| {
      ScanOfBeginning(text, index + 2);
    } else if text[index] != QUOTE {
      ScanOfBeginning(text, index + 1);
    }
  }

  lemma {:induction false} SplitAlternates(text: string)
    ensures Alternating(Split(text))
    ensures text != "" ==> Split(text) != [] && (Split(text)[0].protected <==> text[0] == QUOTE)
    decreases |text|
  {
    if text != "" {
      var n := BeforeQuote(text);
      if n > 0 {
        SplitAlternates(text[n..]);
        assert Split(text)[1..] == Split(text[n..]);
        assert text[0] == text[..n][0];
      } else {
        var (end, closed) := Scan(text, 1);
        SplitAlternates(text[end..]);
        assert Split(text)[1..] == Split(text[end..]);
        if closed {
          ScanOfBeginning(text, 1);
        } else {
          assert text[..end] == text;
        }
      }
    }
  }

  /** Splitting inverts concatenation: no other alternating spans make up the same text. */
  lemma {:induction false} SplitIsUnique(spans: seq<Span>)
    requires Alternating(spans)
    ensures Split(Concat(spans)) == spans
    decreases |spans|
  {
    if spans != [] {
      var first, rest := spans[0], Concat(spans[1..]);
      SplitIsUnique(spans[1..]);
      assert spans == [first] + spans[1..];
      if first.protected {
        if |spans| == 1 {
          assert first.text + rest == first.text;
        } else {
          ClosedScanIsLocal(first.text, 1, rest);
        }
        SplitLiteral(first.text + rest);
        assert (first.text + rest)[..|first.text|] == first.text && (first.text + rest)[|first.text|..] == rest;
      } else {
        if |spans| > 1 {
          assert spans[1] == spans[1..][0];
        }
        SplitPlain(first.text, rest);
      }
    }
  }
}
