/** The fixed codes are the canonical Huffman codes of their lengths (sections 3.2.2 and 3.2.6 of RFC 1951). */
module Huffman {
  import opened Deflate

  /** Section 3.2.6: the lengths the fixed code gives to the 288 symbols. */
  function CodeLength(symbol: nat): nat {
    if symbol <= 143 then 8 else if symbol <= 255 then 9 else if symbol <= 279 then 7 else 8
  }

  /** How many symbols below `symbol` have codes of `length` bits. */
  function Rank(symbol: nat, length: nat): nat {
    if symbol == 0 then 0
    else Rank(symbol - 1, length) + if CodeLength(symbol - 1) == length then 1 else 0
  }

  /** Section 3.2.2, step 2: the smallest code of each length. */
  function FirstCode(length: nat): nat {
    if length == 0 then 0
    else 2 * (FirstCode(length - 1) + if length == 1 then 0 else Rank(288, length - 1))
  }

  /** Section 3.2.2, step 3: codes of one length are consecutive, in the order of the symbols. */
  function CanonicalCode(symbol: nat): nat {
    FirstCode(CodeLength(symbol)) + Rank(symbol, CodeLength(symbol))
  }

  lemma {:induction false} RankInClosedForm(symbol: nat, length: nat)
    requires symbol <= 288
    ensures Rank(symbol, length) ==
      if length == 7 then (if symbol <= 256 then 0 else if symbol <= 280 then symbol - 256 else 24)
      else if length == 8 then (if symbol <= 144 then symbol else if symbol <= 280 then 144 else symbol - 136)
      else if length == 9 then (if symbol <= 144 then 0 else if symbol <= 256 then symbol - 144 else 112)
      else 0
  {
    if symbol > 0 {
      RankInClosedForm(symbol - 1, length);
    }
  }

  lemma {:induction false} FirstCodeBelowSeven(length: nat)
    requires length <= 7
    ensures FirstCode(length) == 0
  {
    if length > 0 {
      FirstCodeBelowSeven(length - 1);
      RankInClosedForm(288, length - 1);
    }
  }

  lemma FixedCodeIsCanonical(symbol: nat)
    requires symbol < 288
    ensures FixedCode(symbol) == (CanonicalCode(symbol), CodeLength(symbol))
  {
    hide Rank;
    var length := CodeLength(symbol);
    RankInClosedForm(symbol, length);
    FirstCodeBelowSeven(7);
    RankInClosedForm(288, 7);
    RankInClosedForm(288, 8);
    assert FirstCode(8) == 2 * (FirstCode(7) + Rank(288, 7));
    assert FirstCode(9) == 2 * (FirstCode(8) + Rank(288, 8));
  }
}
