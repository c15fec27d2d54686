/** The bounded EBML header walk that tells WebM from Matroska (sections 4 to 6 of RFC 8794). */
module Ebml {
  import opened Prelude
  import opened BitStrings

  const SNIFF_BYTES := 64
  const MAGIC: seq<Byte> := [0x1a, 0x45, 0xdf, 0xa3]
  const DOCTYPE_ID: seq<Byte> := [0x42, 0x82]

  function DocTypes(payload: seq<Byte>): Option<string> {
    if payload == [0x77, 0x65, 0x62, 0x6d] then Some("video/webm")
    else if payload == [0x6d, 0x61, 0x74, 0x72, 0x6f, 0x73, 0x6b, 0x61] then Some("video/x-matroska")
    else None
  }

  /** These bytes are this text, a byte for each character. */
  predicate Spell(bytes: seq<Byte>, text: string) {
    |bytes| == |text| && forall i :: 0 <= i < |text| ==> bytes[i] == text[i] as int
  }

  /** RFC 8794, section 11.2, and the two document types: the EBML and DocType ids as numbers, the payloads as text, the window as its size. */
  lemma IdsAndDocTypes(payload: seq<Byte>)
    ensures FromBigEndian(MAGIC) == 0x1A45DFA3 && FromBigEndian(DOCTYPE_ID) == 0x4282 && SNIFF_BYTES == 64
    ensures DocTypes(payload) ==
      if Spell(payload, "webm") then Some("video/webm")
      else if Spell(payload, "matroska") then Some("video/x-matroska") else None
  {
    assert DOCTYPE_ID[..1] == [0x42] && [0x42][..0] == [];
    assert MAGIC[..3] == [0x1a, 0x45, 0xdf] && [0x1a, 0x45, 0xdf][..2] == [0x1a, 0x45] && [0x1a, 0x45][..1] == [0x1a];
  }

  // ----- variable-length integers -----

  function BitLength(n: nat): nat {
    if n == 0 then 0 else 1 + BitLength(n / 2)
  }

  lemma {:induction false} BitLengthOf(n: nat, k: nat)
    requires Pow2(k) <= n < Pow2(k + 1)
    ensures BitLength(n) == k + 1
  {
    if k > 0 {
      BitLengthOf(n / 2, k - 1);
    }
  }

  /** The first byte's leading zeros count the bytes that follow it. */
  function Width(first: Byte): (w: nat)
    requires first > 0
    ensures 1 <= w <= 8
  {
    ByteHasEightBits(first);
    9 - BitLength(first)
  }

  lemma ByteHasEightBits(first: Byte)
    requires first > 0
    ensures 1 <= BitLength(first) <= 8
  {
    BitLengthBelow(first, 8);
  }

  lemma {:induction false} BitLengthBelow(n: nat, k: nat)
    requires n < Pow2(k)
    ensures BitLength(n) <= k
  {
    if n > 0 {
      BitLengthBelow(n / 2, k - 1);
    }
  }

  /** Can a number be read here, and how wide is it? Zero stands for no. */
  function NumberWidth(data: seq<Byte>, offset: nat): (w: nat)
    ensures w > 0 ==> offset + w <= |data|
  {
    if offset >= |data| || data[offset] == 0 || offset + Width(data[offset]) > |data| then 0 else Width(data[offset])
  }

  /** An element id is used as written, a size has its marker bit cleared. */
  datatype Number = Raw(bytes: seq<Byte>) | Value(value: nat)

  function ReadNumber(data: seq<Byte>, offset: nat, keepMarker: bool): (r: Option<(Number, nat)>)
    ensures r.Some? ==> r.value.0.Raw? == keepMarker && offset < r.value.1 <= |data|
  {
    var w := NumberWidth(data, offset);
    if w == 0 then None
    else if keepMarker then Some((Raw(data[offset..offset + w]), offset + w))
    else Some((Value(Unmarked(data[offset..offset + w])), offset + w))
  }

  /** The first byte without its marker, then the others, most significant first. */
  function Unmarked(bytes: seq<Byte>): nat
    requires bytes != [] && bytes[0] > 0
  {
    var first: nat := bytes[0];
    Fold(first % Pow2(8 - Width(bytes[0])), bytes[1..])
  }

  function Fold(value: nat, bytes: seq<Byte>): nat {
    if bytes == [] then value else Fold(value, bytes[..|bytes| - 1]) * 256 + bytes[|bytes| - 1]
  }

  method EbmlNumber(data: seq<Byte>, offset: nat, keepMarker: bool) returns (number: Option<(Number, nat)>)
    ensures number == ReadNumber(data, offset, keepMarker)
  {
    if offset >= |data| {
      return None;
    }
    var first := data[offset];
    if first == 0 {
      return None;
    }
    var w := Width(first);
    if offset + w > |data| {
      return None;
    }
    if keepMarker {
      return Some((Raw(data[offset..offset + w]), offset + w));
    }
    var wide: nat := first;
    var value := wide % Pow2(8 - w);
    ghost var start := value;
    ghost var bytes := data[offset..offset + w];
    for i := 1 to w
      invariant value == Fold(start, bytes[1..i])
    {
      assert bytes[1..i + 1][..i - 1] == bytes[1..i];
      value := value * 256 + data[offset + i];
    }
    assert bytes[1..w] == bytes[1..];
    return Some((Value(value), offset + w));
  }

  // ----- the walk -----

  /** From `offset` to `end`, element by element; a number that cannot be read ends it. */
  function Walk(window: seq<Byte>, offset: nat, end: nat): Option<string>
    requires end <= |window|
    decreases |window| - offset
  {
    if offset >= end then None else
    var (id, afterId) :- ReadNumber(window, offset, true);
    var (size, payload) :- ReadNumber(window, afterId, false);
    if id.bytes == DOCTYPE_ID then
      if payload + size.value > |window| then None else DocTypes(window[payload..payload + size.value])
    else Walk(window, payload + size.value, end)
  }

  function Window(head: seq<Byte>): seq<Byte> {
    head[..Min(SNIFF_BYTES, |head|)]
  }

  function VideoType(head: seq<Byte>): Option<string> {
    var window := Window(head);
    var (size, offset) :- ReadNumber(window, 4, false);
    Walk(window, offset, Min(offset + size.value, |window|))
  }

  method EbmlVideoType(head: seq<Byte>) returns (mediaType: Option<string>)
    ensures mediaType == VideoType(head)
  {
    hide ReadNumber, DocTypes;
    var window := head[..Min(SNIFF_BYTES, |head|)];
    var size := EbmlNumber(window, 4, false);
    if size.None? {
      return None;
    }
    var offset := size.value.1;
    var end := Min(offset + size.value.0.value, |window|);
    while offset < end
      invariant end <= |window| && Walk(window, offset, end) == VideoType(head)
      decreases end - offset
    {
      var id := EbmlNumber(window, offset, true);
      if id.None? {
        return None;
      }
      var length := EbmlNumber(window, id.value.1, false);
      if length.None? {
        return None;
      }
      offset := length.value.1;
      if id.value.0.bytes == DOCTYPE_ID {
        if offset + length.value.0.value > |window| {
          return None;
        }
        return DocTypes(window[offset..offset + length.value.0.value]);
      }
      offset := offset + length.value.0.value;
    }
    return None;
  }

  // ----- headers, written out -----

  /** `width` is how many bytes the size is written in, which need not be the fewest. */
  datatype Element = Element(id: seq<Byte>, width: nat, payload: seq<Byte>) {
    predicate Wellformed() {
      && id != [] && id[0] > 0 && |id| == Width(id[0])
      && 1 <= width <= 8 && |payload| < Pow2(7 * width)
    }

    function Bytes(): seq<Byte> {
      id + SizeBytes(|payload|, width) + payload
    }
  }

  /** A size in `width` bytes: the marker bit in front of 7 * width bits. */
  function SizeBytes(size: nat, width: nat): (bytes: seq<Byte>)
    ensures |bytes| == width
  {
    BigEndian(size + Pow2(7 * width), width)
  }

  function Body(elements: seq<Element>): seq<Byte> {
    if elements == [] then [] else elements[0].Bytes() + Body(elements[1..])
  }

  function Header(elements: seq<Element>, width: nat): seq<Byte> {
    MAGIC + SizeBytes(|Body(elements)|, width) + Body(elements)
  }

  // ----- a written size reads back -----

  lemma {:induction false} FoldIsBigEndian(value: nat, bytes: seq<Byte>)
    ensures Fold(value, bytes) == value * Pow2(8 * |bytes|) + FromBigEndian(bytes)
    ensures FromBigEndian(bytes) < Pow2(8 * |bytes|)
  {
    if bytes != [] {
      var front := bytes[..|bytes| - 1];
      FoldIsBigEndian(value, front);
      ByteOfPow2(8 * |front|);
      assert value * (256 * Pow2(8 * |front|)) == value * Pow2(8 * |front|) * 256;
    } else {
      assert Pow2(0) == 1;
    }
  }

  lemma {:induction false} BigEndianIsFold(first: Byte, rest: seq<Byte>)
    ensures FromBigEndian([first] + rest) == Fold(first, rest)
  {
    if rest == [] {
      assert [first] + rest == [first];
      assert [first][..0] == [];
    } else {
      BigEndianIsFold(first, rest[..|rest| - 1]);
      assert ([first] + rest)[..|rest|] == [first] + rest[..|rest| - 1];
    }
  }

  lemma Distributes(f: nat, m: nat, p: nat)
    ensures (f - m) * p == f * p - m * p
  {
  }

  lemma ReducedOnce(f: nat, m: nat)
    requires m <= f < 2 * m
    ensures f % m == f - m
  {
    var q := f / m;
    assert f == m * q + f % m;
    if q >= 2 {
      MulMonotone(2, q, m);
    }
  }

  /** The leading digit of a marked number is the marker and the size's own high part. */
  lemma LeadingDigit(f: nat, r: nat, p: nat, m: nat, size: nat)
    requires r < p && f * p + r == size + m * p && size < m * p
    ensures m <= f < 2 * m && f % m == f - m && (f - m) * p + r == size
  {
    Distributes(f, m, p);
    if f < m {
      MulMonotone(f + 1, m, p);
      Distributes(f + 1, 1, p);
    } else if f >= 2 * m {
      MulMonotone(m, f - m, p);
    }
    ReducedOnce(f, m);
  }

  lemma MulMonotone(a: nat, b: nat, p: nat)
    requires a <= b
    ensures a * p <= b * p
  {
  }

  lemma {:induction false} PowAdd(m: nat, n: nat)
    ensures Pow2(m + n) == Pow2(m) * Pow2(n)
  {
    if m > 0 {
      PowAdd(m - 1, n);
      assert Pow2(m) * Pow2(n) == 2 * (Pow2(m - 1) * Pow2(n));
    } else {
      assert Pow2(0) == 1;
    }
  }

  lemma SizeBytesFold(size: nat, width: nat)
    requires 1 <= width <= 8 && size < Pow2(7 * width)
    ensures var bytes := SizeBytes(size, width); Fold(bytes[0], bytes[1..]) == size + Pow2(7 * width)
  {
    hide BigEndian, FromBigEndian, Fold;
    var bytes := SizeBytes(size, width);
    assert Pow2(7 * width + 1) == 2 * Pow2(7 * width);
    PowMonotone(7 * width + 1, 8 * width);
    BigEndianRoundTrip(size + Pow2(7 * width), width);
    BigEndianIsFold(bytes[0], bytes[1..]);
    assert bytes == [bytes[0]] + bytes[1..];
  }

  lemma SizeRoundTrip(size: nat, width: nat)
    requires 1 <= width <= 8 && size < Pow2(7 * width)
    ensures var bytes := SizeBytes(size, width); bytes[0] > 0 && Width(bytes[0]) == width && Unmarked(bytes) == size
  {
    hide SizeBytes, FromBigEndian, Fold, BitLength;
    var bytes := SizeBytes(size, width);
    var first: nat, rest := bytes[0], bytes[1..];
    var p, m := Pow2(8 * (width - 1)), Pow2(8 - width);
    SizeBytesFold(size, width);
    FoldIsBigEndian(first, rest);
    assert (8 - width) + 8 * (width - 1) == 7 * width;
    PowAdd(8 - width, 8 * (width - 1));
    LeadingDigit(first, FromBigEndian(rest), p, m, size);
    assert Pow2(8 - width + 1) == 2 * m;
    BitLengthOf(first, 8 - width);
    FoldIsBigEndian(first - m, rest);
  }

  // ----- the walk over a written header -----

  /** `part` stands in the file at `offset`. */
  ghost predicate At(file: seq<Byte>, offset: nat, part: seq<Byte>) {
    offset + |part| <= |file| && file[offset..offset + |part|] == part
  }

  lemma AtParts(file: seq<Byte>, offset: nat, first: seq<Byte>, second: seq<Byte>)
    requires At(file, offset, first + second)
    ensures At(file, offset, first) && At(file, offset + |first|, second)
  {
    var whole := file[offset..offset + |first + second|];
    assert file[offset..offset + |first|] == whole[..|first|] == first;
    assert file[offset + |first|..offset + |first| + |second|] == whole[|first|..] == second;
  }

  /** A number that stands in the file is read from the window if it ends in it, and not at all otherwise. */
  lemma NumberAt(file: seq<Byte>, limit: nat, offset: nat, part: seq<Byte>, keepMarker: bool)
    requires limit <= |file| && At(file, offset, part) && part != [] && part[0] > 0 && Width(part[0]) == |part|
    ensures ReadNumber(file[..limit], offset, keepMarker) ==
      if offset + |part| > limit then None
      else Some((if keepMarker then Raw(part) else Value(Unmarked(part)), offset + |part|))
  {
    hide Width, Unmarked;
    assert file[offset] == file[offset..offset + |part|][0];
    if offset + |part| <= limit {
      assert file[..limit][offset..offset + |part|] == file[offset..offset + |part|];
    }
  }

  /** The table entry of the first DocType if that element ends within the limit, and nothing otherwise. */
  ghost function FirstDocType(elements: seq<Element>, offset: nat, limit: nat): Option<string> {
    if elements == [] then None
    else
      var next := offset + |elements[0].Bytes()|;
      if elements[0].id != DOCTYPE_ID then FirstDocType(elements[1..], next, limit)
      else if next <= limit then DocTypes(elements[0].payload)
      else None
  }

  lemma {:induction false} NothingBeyondTheLimit(elements: seq<Element>, offset: nat, limit: nat)
    requires offset >= limit && forall e <- elements :: e.Wellformed()
    ensures FirstDocType(elements, offset, limit) == None
  {
    if elements != [] {
      assert elements[0].Wellformed();
      NothingBeyondTheLimit(elements[1..], offset + |elements[0].Bytes()|, limit);
    }
  }

  lemma ElementPastTheLimit(elements: seq<Element>, offset: nat, limit: nat)
    requires elements != [] && (forall e <- elements :: e.Wellformed()) && offset + |elements[0].Bytes()| > limit
    ensures FirstDocType(elements, offset, limit) == None
  {
    NothingBeyondTheLimit(elements[1..], offset + |elements[0].Bytes()|, limit);
  }

  /** The two numbers an element starts with, as far as the window reaches, and the payload after them. */
  lemma ElementNumbers(file: seq<Byte>, limit: nat, offset: nat, e: Element)
    requires limit <= |file| && e.Wellformed() && At(file, offset, e.Bytes())
    ensures var afterId, payload := offset + |e.id|, offset + |e.id| + e.width;
      && ReadNumber(file[..limit], offset, true) == (if afterId > limit then None else Some((Raw(e.id), afterId)))
      && ReadNumber(file[..limit], afterId, false) == (if payload > limit then None else Some((Value(|e.payload|), payload)))
      && At(file, payload, e.payload)
  {
    hide ReadNumber, Width, Unmarked, SizeBytes, At;
    var size := SizeBytes(|e.payload|, e.width);
    assert e.Bytes() == e.id + (size + e.payload);
    AtParts(file, offset, e.id, size + e.payload);
    AtParts(file, offset + |e.id|, size, e.payload);
    NumberAt(file, limit, offset, e.id, true);
    SizeRoundTrip(|e.payload|, e.width);
    NumberAt(file, limit, offset + |e.id|, size, false);
  }

  lemma WalkUnreadable(window: seq<Byte>, offset: nat, end: nat, id: Number, afterId: nat)
    requires end <= |window| && offset < end
    requires ReadNumber(window, offset, true) in {None, Some((id, afterId))} && ReadNumber(window, afterId, false).None?
    ensures Walk(window, offset, end) == None
  {
    hide ReadNumber, DocTypes;
  }

  lemma WalkReadable(window: seq<Byte>, offset: nat, end: nat, id: seq<Byte>, afterId: nat, length: nat, payload: nat)
    requires end <= |window| && offset < end
    requires ReadNumber(window, offset, true) == Some((Raw(id), afterId))
    requires ReadNumber(window, afterId, false) == Some((Value(length), payload))
    ensures Walk(window, offset, end) ==
      if id != DOCTYPE_ID then Walk(window, payload + length, end)
      else if payload + length <= |window| then DocTypes(window[payload..payload + length])
      else None
  {
    hide ReadNumber, DocTypes;
  }

  /** One element at the walk's position: passed over, answered, or cut off by the window. */
  lemma WalkStep(file: seq<Byte>, limit: nat, offset: nat, end: nat, e: Element)
    requires limit <= |file| && end <= limit && offset < end && e.Wellformed() && At(file, offset, e.Bytes())
    ensures var next := offset + |e.Bytes()|;
      Walk(file[..limit], offset, end) ==
        if offset + |e.id| + e.width > limit then None
        else if e.id != DOCTYPE_ID then Walk(file[..limit], next, end)
        else if next <= limit then DocTypes(e.payload)
        else None
  {
    hide Walk, ReadNumber, SizeBytes, DocTypes, At, Width;
    ElementNumbers(file, limit, offset, e);
    var afterId, payload := offset + |e.id|, offset + |e.id| + e.width;
    if payload > limit {
      WalkUnreadable(file[..limit], offset, end, Raw(e.id), afterId);
    } else {
      WalkReadable(file[..limit], offset, end, e.id, afterId, |e.payload|, payload);
      if payload + |e.payload| <= limit {
        AtInWindow(file, limit, payload, e.payload);
      }
    }
  }

  lemma AtInWindow(file: seq<Byte>, limit: nat, offset: nat, part: seq<Byte>)
    requires At(file, offset, part) && offset + |part| <= limit <= |file|
    ensures file[..limit][offset..offset + |part|] == part
  {
  }

  lemma {:induction false} WalkFindsFirstDocType(file: seq<Byte>, limit: nat, offset: nat, elements: seq<Element>)
    requires limit <= |file| && (forall e <- elements :: e.Wellformed()) && At(file, offset, Body(elements))
    ensures Walk(file[..limit], offset, Min(offset + |Body(elements)|, limit)) == FirstDocType(elements, offset, limit)
    decreases |elements|
  {
    hide ReadNumber, DocTypes, Width, SizeBytes, At;
    if offset >= limit {
      NothingBeyondTheLimit(elements, offset, limit);
    } else if elements != [] {
      hide Walk;
      var e := elements[0];
      assert e.Wellformed();
      var next := offset + |e.Bytes()|;
      AtParts(file, offset, e.Bytes(), Body(elements[1..]));
      WalkStep(file, limit, offset, Min(offset + |Body(elements)|, limit), e);
      if next > limit {
        ElementPastTheLimit(elements, offset, limit);
      }
      if e.id != DOCTYPE_ID {
        WalkFindsFirstDocType(file, limit, next, elements[1..]);
      }
    }
  }

  /**
   For every well-formed header, whatever elements it has, however their sizes are written and whatever
   follows it: the answer is the table entry of the first DocType when that element ends within the
   first 64 bytes, and nothing otherwise. It depends on no byte past them.
   */
  lemma HeaderIsIdentifiedByItsFirstDocType(elements: seq<Element>, width: nat, rest: seq<Byte>, head: seq<Byte>)
    requires forall e <- elements :: e.Wellformed()
    requires 1 <= width <= 8 && |Body(elements)| < Pow2(7 * width)
    requires head <= Header(elements, width) + rest && |head| >= Min(SNIFF_BYTES, |Header(elements, width) + rest|)
    ensures VideoType(head) == FirstDocType(elements, 4 + width, Min(SNIFF_BYTES, |head|))
  {
    hide Walk, ReadNumber, FirstDocType, SizeBytes, Body, Width, Unmarked;
    var file := Header(elements, width) + rest;
    var limit := Min(SNIFF_BYTES, |head|);
    var size := SizeBytes(|Body(elements)|, width);
    assert Window(head) == file[..limit];
    assert file == MAGIC + (size + (Body(elements) + rest));
    assert At(file, 0, MAGIC + (size + (Body(elements) + rest)));
    AtParts(file, 0, MAGIC, size + (Body(elements) + rest));
    AtParts(file, 4, size, Body(elements) + rest);
    AtParts(file, 4 + width, Body(elements), rest);
    SizeRoundTrip(|Body(elements)|, width);
    NumberAt(file, limit, 4, size, false);
    WalkFindsFirstDocType(file, limit, 4 + width, elements);
  }

  // ----- the peek -----

  function Joined(chunks: seq<seq<Byte>>): seq<Byte> {
    if chunks == [] then [] else chunks[0] + Joined(chunks[1..])
  }

  /**
   The head is the fewest leading chunks that hold `size` bytes, or all of them when there are not as many;
   no chunk after those is asked for.
   */
  method Peeked(chunks: seq<seq<Byte>>, size: nat) returns (head: seq<Byte>, rest: seq<seq<Byte>>)
    ensures head + Joined(rest) == Joined(chunks)
    ensures exists n: nat :: n <= |chunks| && TakenOff(chunks, size, n, head) && rest == chunks[n..]
    ensures rest == [] || |head| >= size
  {
    hide Joined;
    head := [];
    var n := 0;
    assert chunks[0..] == chunks;
    JoinedEnds(chunks);
    while n < |chunks|
      invariant 0 <= n <= |chunks| && head + Joined(chunks[n..]) == Joined(chunks)
      invariant TakenOff(chunks, size, n, head) && (head == [] || |head| < size)
    {
      JoinedNext(chunks, n);
      var chunk := chunks[n];
      n := n + 1;
      if chunk != [] {
        head := head + chunk;
        if |head| >= size {
          break;
        }
      }
    }
    rest := chunks[n..];
  }

  lemma JoinedEnds(chunks: seq<seq<Byte>>)
    ensures Joined(chunks[..0]) == []
  {
  }

  /** The first `n` chunks make the head, and no fewer of them held `size` bytes, or any byte at all. */
  ghost predicate TakenOff(chunks: seq<seq<Byte>>, size: nat, n: nat, head: seq<Byte>)
    requires n <= |chunks|
  {
    && head == Joined(chunks[..n])
    && forall m: nat :: m < n ==> Joined(chunks[..m]) == [] || |Joined(chunks[..m])| < size
  }

  lemma JoinedNext(chunks: seq<seq<Byte>>, n: nat)
    requires n < |chunks|
    ensures Joined(chunks[..n + 1]) == Joined(chunks[..n]) + chunks[n]
    ensures Joined(chunks[n..]) == chunks[n] + Joined(chunks[n + 1..])
  {
    assert chunks[n..][1..] == chunks[n + 1..];
    JoinedSnoc(chunks[..n], chunks[n]);
    assert chunks[..n + 1] == chunks[..n] + [chunks[n]];
  }

  lemma {:induction false} JoinedSnoc(chunks: seq<seq<Byte>>, chunk: seq<Byte>)
    ensures Joined(chunks + [chunk]) == Joined(chunks) + chunk
  {
    if chunks == [] {
      assert [chunk][1..] == [];
    } else {
      JoinedSnoc(chunks[1..], chunk);
      assert (chunks + [chunk])[1..] == chunks[1..] + [chunk];
    }
  }
}
