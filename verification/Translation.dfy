/** The translation of one prompt: literals never leave the gateway, and only trimmed cores are handed over. */
module Translation {
  import opened Prelude
  import opened Spans

  /** The characters `str.strip` removes. */
  predicate IsSpace(c: char) {
    var n := c as int;
    9 <= n <= 13 || 28 <= n <= 32 || n == 0x85 || n == 0xA0 || n == 0x1680 || 0x2000 <= n <= 0x200A
    || n == 0x2028 || n == 0x2029 || n == 0x202F || n == 0x205F || n == 0x3000
  }

  function LeadingSpace(text: string): (n: nat)
    ensures n <= |text|
    ensures forall i :: 0 <= i < n ==> IsSpace(text[i])
    ensures n < |text| ==> !IsSpace(text[n])
  {
    if text == "" || !IsSpace(text[0]) then 0 else 1 + LeadingSpace(text[1..])
  }

  function TrailingSpace(text: string): (n: nat)
    ensures n <= |text|
    ensures forall i :: |text| - n <= i < |text| ==> IsSpace(text[i])
    ensures n < |text| ==> !IsSpace(text[|text| - n - 1])
  {
    if text == "" || !IsSpace(text[|text| - 1]) then 0 else 1 + TrailingSpace(text[..|text| - 1])
  }

  /** Leading whitespace, core, trailing whitespace; all of a blank text leads. */
  function Trimmed(text: string): (parts: (string, string, string))
    ensures parts.0 + parts.1 + parts.2 == text
  {
    var lead := LeadingSpace(text);
    if lead == |text| then (text, "", "")
    else
      var end := |text| - TrailingSpace(text);
      TrimsDoNotMeet(text);
      (text[..lead], text[lead..end], text[end..])
  }

  lemma TrimsDoNotMeet(text: string)
    requires LeadingSpace(text) < |text|
    ensures LeadingSpace(text) < |text| - TrailingSpace(text)
  {
    var i := LeadingSpace(text);
    assert !IsSpace(text[i]);
  }

  /** Trimming takes whitespace, all of it at both ends and nothing else. */
  lemma TrimmedIsTight(text: string)
    ensures var (lead, core, trail) := Trimmed(text);
      (forall i :: 0 <= i < |lead| ==> IsSpace(lead[i])) && (forall i :: 0 <= i < |trail| ==> IsSpace(trail[i]))
      && (core != "" ==> !IsSpace(core[0]) && !IsSpace(core[|core| - 1]))
  {
    hide IsSpace;
  }

  const SPACES := "\t\n\U{b}\U{c}\r\U{1c}\U{1d}\U{1e}\U{1f} \U{85}\U{a0}\U{1680}\U{2000}\U{2001}\U{2002}\U{2003}\U{2004}\U{2005}\U{2006}\U{2007}\U{2008}\U{2009}\U{200a}\U{2028}\U{2029}\U{202f}\U{205f}\U{3000}"

  /** Whitespace, character by character: blank, tab, line ends and the other twenty-odd of Unicode. */
  lemma SpacesAre(c: char)
    ensures IsSpace(c) <==> c in SPACES
  {
  }

  // ----- which script a text carries -----

  predicate IsCyrillic(c: char) {
    var n := c as int;
    0x0400 <= n <= 0x052F || 0x2DE0 <= n <= 0x2DFF || 0xA640 <= n <= 0xA69F
  }

  predicate IsKana(c: char) {
    var n := c as int;
    0x3040 <= n <= 0x30FF || 0x31F0 <= n <= 0x31FF || 0xFF66 <= n <= 0xFF9D
  }

  /** Han characters alone decide nothing, and an unknown source is in no text. */
  predicate CarriesScript(c: char, source: string) {
    (source == "ru" && IsCyrillic(c)) || (source == "ja" && IsKana(c))
  }

  /** Cyrillic is Russian and kana are Japanese, never both; Latin letters, digits and Han characters are neither. */
  lemma ScriptsApart(c: char, source: string)
    ensures CarriesScript(c, "ru") <==>
      '\U{0400}' <= c <= '\U{052f}' || '\U{2de0}' <= c <= '\U{2dff}' || '\U{a640}' <= c <= '\U{a69f}'
    ensures CarriesScript(c, "ja") <==>
      '\U{3040}' <= c <= '\U{30ff}' || '\U{31f0}' <= c <= '\U{31ff}' || '\U{ff66}' <= c <= '\U{ff9d}'
    ensures c < '\U{0400}' || '\U{4e00}' <= c <= '\U{9fa5}' ==> !CarriesScript(c, source)
    ensures CarriesScript(c, source) ==> source == "ru" || source == "ja"
    ensures !(CarriesScript(c, "ru") && CarriesScript(c, "ja"))
  {
  }

  predicate HasScript(text: string, source: string) {
    exists i :: 0 <= i < |text| && CarriesScript(text[i], source)
  }

  function DetectSource(text: string, sources: seq<string>): Option<string> {
    if sources == [] then None
    else if HasScript(text, sources[0]) then Some(sources[0])
    else DetectSource(text, sources[1..])
  }

  // ----- one field through the pipeline -----

  datatype Config = Config(enabled: bool, preserve: bool, sources: seq<string>, target: string)

  datatype Outcome = Outcome(effective: string, applied: bool, source: Option<string>)

  /** The backend: what it answers for a core, a source and a target. */
  type Translator = (string, string, string) -> string

  function SpansOf(config: Config, text: string): seq<Span> {
    if config.preserve then Split(text) else if text == "" then [] else [Span(text, false)]
  }

  /** What of a span may be translated. */
  function Core(span: Span): string {
    if span.protected then "" else Trimmed(span.text).1
  }

  /** The cores of all spans, one after another: what the source is detected in. */
  function Cores(spans: seq<Span>): string {
    if spans == [] then "" else Core(spans[0]) + Cores(spans[1..])
  }

  predicate HandedOver(span: Span, source: string) {
    Core(span) != "" && HasScript(Core(span), source)
  }

  function Piece(span: Span, source: string, target: string, translator: Translator): string {
    if HandedOver(span, source) then
      var (lead, core, trail) := Trimmed(span.text);
      lead + translator(core, source, target) + trail
    else span.text
  }

  function Pieces(spans: seq<Span>, source: string, target: string, translator: Translator): seq<Span> {
    if spans == [] then []
    else
      var first := Span(Piece(spans[0], source, target, translator), spans[0].protected);
      [first] + Pieces(spans[1..], source, target, translator)
  }

  /** The cores that are handed over, in order. */
  function Handed(spans: seq<Span>, source: string): seq<string> {
    if spans == [] then []
    else (if HandedOver(spans[0], source) then [Core(spans[0])] else []) + Handed(spans[1..], source)
  }

  function Source(config: Config, text: string): Option<string> {
    DetectSource(Cores(SpansOf(config, text)), config.sources)
  }

  /** Is anything to be translated at all? */
  predicate Applies(config: Config, text: string) {
    config.enabled && Source(config, text).Some? && Source(config, text).value != config.target
  }

  function Translated(config: Config, text: string, translator: Translator): Outcome {
    if !Applies(config, text) then Outcome(text, false, None)
    else
      var source := Source(config, text).value;
      Outcome(Concat(Pieces(SpansOf(config, text), source, config.target, translator)), true, Some(source))
  }

  /** Everything the backend is asked to translate of this text. */
  function Asked(config: Config, text: string): seq<string> {
    if Applies(config, text) then Handed(SpansOf(config, text), Source(config, text).value) else []
  }

  /** A core fit to be handed over: trimmed, not empty, in the source's script. */
  ghost predicate FitCore(core: string, source: string) {
    core != "" && !IsSpace(core[0]) && !IsSpace(core[|core| - 1]) && HasScript(core, source)
  }

  ghost predicate AllFit(asked: seq<string>, source: string, quoteFree: bool) {
    forall i :: 0 <= i < |asked| ==> FitCore(asked[i], source) && (quoteFree ==> QuoteFree(asked[i]))
  }

  ghost predicate AnyHandedOver(spans: seq<Span>, n: nat, source: string) {
    exists j :: 0 <= j < n && j < |spans| && HandedOver(spans[j], source)
  }

  lemma OneMoreSpan(spans: seq<Span>, n: nat, source: string)
    requires n < |spans|
    ensures AnyHandedOver(spans, n + 1, source) <==> AnyHandedOver(spans, n, source) || HandedOver(spans[n], source)
  {
    hide HandedOver;
  }

  lemma OneMoreCore(asked: seq<string>, core: string, source: string, quoteFree: bool)
    requires AllFit(asked, source, quoteFree) && FitCore(core, source) && (quoteFree ==> QuoteFree(core))
    ensures AllFit(asked + [core], source, quoteFree)
  {
    hide FitCore, QuoteFree;
  }

  /**
   The pipeline as it runs. `asked` is what the backend was given: fit cores only, and with literals
   preserved none of them contains a quote.
   */
  method TranslateText(config: Config, text: string, translator: Translator) returns (outcome: Outcome, asked: seq<string>)
    ensures outcome == Translated(config, text, translator) && asked == Asked(config, text)
    ensures !outcome.applied ==> asked == [] && outcome.effective == text
    ensures outcome.applied ==> asked != [] && AllFit(asked, outcome.source.value, config.preserve)
  {
    hide Alternating, Split, Cores, DetectSource, Pieces, AllFit, HasScript, Concat, Handed;
    if !config.enabled {
      return Outcome(text, false, None), [];
    }
    var spans := SplitSpans(text, config.preserve);
    var cores := JoinCores(spans);
    var source := DetectSource(cores, config.sources);
    if source.None? || source.value == config.target {
      return Outcome(text, false, None), [];
    }
    SplitAlternates(text);
    DetectedIsTheFirstPresent(cores, config.sources);
    var effective;
    effective, asked := TranslateSpans(spans, source.value, config.target, translator, config.preserve);
    var applied := asked != [];
    return Outcome(effective, applied, if applied then source else None), asked;
  }

  /** The loop over the spans: something is handed over whenever the source's script is in some core. */
  method TranslateSpans(spans: seq<Span>, source: string, target: string, translator: Translator, ghost quoteFree: bool)
    returns (effective: string, asked: seq<string>)
    requires quoteFree ==> Alternating(spans)
    ensures effective == Concat(Pieces(spans, source, target, translator))
    ensures asked == Handed(spans, source)
    ensures HasScript(Cores(spans), source) ==> asked != []
    ensures AllFit(asked, source, quoteFree)
  {
    hide Core, Piece, Pieces, Concat, FitCore, HandedOver, Handed, Cores, Alternating, AllFit, AnyHandedOver, QuoteFree,
      HasScript;
    asked := [];
    effective := "";
    NothingYet(spans, source, quoteFree);
    for i := 0 to |spans|
      invariant effective + Concat(Pieces(spans[i..], source, target, translator)) == Concat(Pieces(spans, source, target, translator))
      invariant asked + Handed(spans[i..], source) == Handed(spans, source)
      invariant asked != [] <==> AnyHandedOver(spans, i, source)
      invariant AllFit(asked, source, quoteFree)
    {
      OneMoreSpan(spans, i, source);
      PiecesStep(spans, i, source, target, translator, effective);
      HandedStep(spans, i, source, asked);
      var piece, core := TranslateSpan(spans[i], source, target, translator);
      effective := effective + piece;
      if core.Some? {
        if quoteFree {
          CoreIsQuoteFree(spans, i);
        }
        OneMoreCore(asked, core.value, source, quoteFree);
        asked := asked + [core.value];
      }
    }
    NothingLeft(spans, source, target, translator);
    NothingMoreHanded(source);
    assert spans[|spans|..] == [];
    SomeSpanIsHandedOver(spans, source);
  }

  lemma NothingYet(spans: seq<Span>, source: string, quoteFree: bool)
    ensures spans[0..] == spans && AllFit([], source, quoteFree) && !AnyHandedOver(spans, 0, source)
  {
  }

  lemma NothingLeft(spans: seq<Span>, source: string, target: string, translator: Translator)
    ensures Concat(Pieces(spans[|spans|..], source, target, translator)) == ""
  {
  }

  lemma NothingMoreHanded(source: string)
    ensures Handed([], source) == []
  {
  }

  lemma HandedStep(spans: seq<Span>, i: nat, source: string, before: seq<string>)
    requires i < |spans|
    ensures before + Handed(spans[i..], source) ==
      before + (if HandedOver(spans[i], source) then [Core(spans[i])] else []) + Handed(spans[i + 1..], source)
  {
    hide HandedOver, Core;
    assert spans[i..][1..] == spans[i + 1..];
  }

  /** One span: copied as it is, or its core handed over between its own whitespace. */
  method TranslateSpan(span: Span, source: string, target: string, translator: Translator)
    returns (piece: string, handed: Option<string>)
    ensures piece == Piece(span, source, target, translator)
    ensures handed == if HandedOver(span, source) then Some(Core(span)) else None
    ensures handed.Some? ==> FitCore(handed.value, source) && !span.protected
  {
    hide HasScript, Trimmed, IsSpace;
    if span.protected {
      return span.text, None;
    }
    TrimmedIsTight(span.text);
    var (lead, core, trail) := Trimmed(span.text);
    if core == "" || !HasScript(core, source) {
      return span.text, None;
    }
    return lead + translator(core, source, target) + trail, Some(core);
  }

  method JoinCores(spans: seq<Span>) returns (cores: string)
    ensures cores == Cores(spans)
  {
    cores := "";
    assert spans[0..] == spans;
    hide Cores, Core;
    for i := 0 to |spans|
      invariant cores + Cores(spans[i..]) == Cores(spans)
    {
      CoresStep(spans, i, cores);
      var core := CoreOf(spans[i]);
      cores := cores + core;
    }
  }

  lemma CoresStep(spans: seq<Span>, i: nat, before: string)
    requires i < |spans|
    ensures before + Cores(spans[i..]) == before + Core(spans[i]) + Cores(spans[i + 1..])
  {
    hide Core;
    assert spans[i..][1..] == spans[i + 1..];
  }

  method CoreOf(span: Span) returns (core: string)
    ensures core == Core(span)
  {
    if span.protected {
      core := "";
    } else {
      core := Trimmed(span.text).1;
    }
  }

  lemma PiecesStep(spans: seq<Span>, i: nat, source: string, target: string, translator: Translator, before: string)
    requires i < |spans|
    ensures before + Concat(Pieces(spans[i..], source, target, translator))
      == before + Piece(spans[i], source, target, translator) + Concat(Pieces(spans[i + 1..], source, target, translator))
  {
  }

  lemma {:induction false} CoreIsQuoteFree(spans: seq<Span>, i: nat)
    requires Alternating(spans) && i < |spans| && !spans[i].protected
    ensures QuoteFree(Core(spans[i]))
  {
    if i == 0 {
      var (lead, core, trail) := Trimmed(spans[0].text);
      assert forall c :: c in core ==> c in lead + core + trail;
    } else {
      CoreIsQuoteFree(spans[1..], i - 1);
    }
  }

  /** The `n`th source is this one, and the script of none before it is in the text. */
  ghost predicate FirstPresent(text: string, sources: seq<string>, n: int, source: string) {
    0 <= n < |sources| && sources[n] == source && forall i :: 0 <= i < n ==> !HasScript(text, sources[i])
  }

  /** The source detected is the first configured one whose script is in the text; none is, when there is no such one. */
  lemma {:induction false} DetectedIsTheFirstPresent(text: string, sources: seq<string>)
    ensures var source := DetectSource(text, sources);
      && (source.None? <==> forall i :: 0 <= i < |sources| ==> !HasScript(text, sources[i]))
      && (source.Some? ==> HasScript(text, source.value) && exists n :: FirstPresent(text, sources, n, source.value))
  {
    hide HasScript;
    if sources != [] {
      DetectedIsTheFirstPresent(text, sources[1..]);
      var source := DetectSource(text, sources);
      assert forall i :: 0 < i < |sources| ==> sources[1..][i - 1] == sources[i];
      if HasScript(text, sources[0]) {
        assert FirstPresent(text, sources, 0, sources[0]);
      } else if source.Some? {
        var n :| FirstPresent(text, sources[1..], n, source.value);
        assert FirstPresent(text, sources, n + 1, source.value);
      }
    }
  }

  /** A script found in the joined cores is found in one of them. */
  lemma {:induction false} SomeSpanIsHandedOver(spans: seq<Span>, source: string)
    ensures HasScript(Cores(spans), source) ==> AnyHandedOver(spans, |spans|, source)
  {
    if spans != [] && HasScript(Cores(spans), source) {
      hide Core;
      var first, rest := Core(spans[0]), Cores(spans[1..]);
      ScriptInEither(first, rest, source);
      if HasScript(first, source) {
        assert HandedOver(spans[0], source);
      } else {
        SomeSpanIsHandedOver(spans[1..], source);
        var j :| 0 <= j < |spans| - 1 && HandedOver(spans[1..][j], source);
        assert HandedOver(spans[j + 1], source);
      }
    }
  }

  lemma ScriptInEither(first: string, rest: string, source: string)
    requires HasScript(first + rest, source)
    ensures HasScript(first, source) || HasScript(rest, source)
  {
  }

  // ----- what survives -----

  /** Texts with cores between them: one text more than there are cores. */
  function Weave(gaps: seq<string>, cores: seq<string>): string
    requires |gaps| == |cores| + 1
  {
    if cores == [] then gaps[0] else gaps[0] + cores[0] + Weave(gaps[1..], cores[1..])
  }

  function Answers(cores: seq<string>, source: string, target: string, translator: Translator): (answers: seq<string>)
    ensures |answers| == |cores|
  {
    if cores == [] then [] else [translator(cores[0], source, target)] + Answers(cores[1..], source, target, translator)
  }

  /** The text around the cores that are handed over; whoever translates them, it is the same. */
  function Around(spans: seq<Span>, source: string): (gaps: seq<string>)
    ensures |gaps| == |Handed(spans, source)| + 1
  {
    if spans == [] then [""]
    else
      var rest := Around(spans[1..], source);
      if HandedOver(spans[0], source) then
        var (lead, core, trail) := Trimmed(spans[0].text);
        [lead, trail + rest[0]] + rest[1..]
      else [spans[0].text + rest[0]] + rest[1..]
  }

  lemma WeavePrefix(text: string, gaps: seq<string>, cores: seq<string>)
    requires |gaps| == |cores| + 1
    ensures Weave([text + gaps[0]] + gaps[1..], cores) == text + Weave(gaps, cores)
  {
    var more := [text + gaps[0]] + gaps[1..];
    assert more[1..] == gaps[1..];
    if cores != [] {
      assert text + gaps[0] + cores[0] + Weave(gaps[1..], cores[1..]) == text + (gaps[0] + cores[0] + Weave(gaps[1..], cores[1..]));
    }
  }

  lemma WeaveCore(lead: string, core: string, trail: string, gaps: seq<string>, cores: seq<string>)
    requires |gaps| == |cores| + 1
    ensures Weave([lead, trail + gaps[0]] + gaps[1..], [core] + cores) == lead + core + trail + Weave(gaps, cores)
  {
    hide Weave;
    WeavePrefix(trail, gaps, cores);
    var more := [trail + gaps[0]] + gaps[1..];
    assert [lead, trail + gaps[0]] + gaps[1..] == [lead] + more;
    WeaveFirst(lead, core, more, cores);
    assert lead + core + (trail + Weave(gaps, cores)) == lead + core + trail + Weave(gaps, cores);
  }

  lemma WeaveFirst(gap: string, core: string, gaps: seq<string>, cores: seq<string>)
    requires |gaps| == |cores| + 1
    ensures Weave([gap] + gaps, [core] + cores) == gap + core + Weave(gaps, cores)
  {
    assert ([gap] + gaps)[1..] == gaps && ([core] + cores)[1..] == cores;
  }

  lemma {:induction false} SpansAreWoven(spans: seq<Span>, source: string, target: string, translator: Translator)
    ensures Concat(spans) == Weave(Around(spans, source), Handed(spans, source))
    ensures Concat(Pieces(spans, source, target, translator)) ==
      Weave(Around(spans, source), Answers(Handed(spans, source), source, target, translator))
  {
    hide Weave, Trimmed, HasScript;
    if spans == [] {
      WeaveNothing();
    } else {
      SpansAreWoven(spans[1..], source, target, translator);
      WovenStep(spans, source, target, translator);
    }
  }

  lemma WeaveNothing()
    ensures Weave([""], []) == ""
  {
  }

  lemma WovenStep(spans: seq<Span>, source: string, target: string, translator: Translator)
    requires spans != []
    requires Concat(spans[1..]) == Weave(Around(spans[1..], source), Handed(spans[1..], source))
    requires Concat(Pieces(spans[1..], source, target, translator)) ==
      Weave(Around(spans[1..], source), Answers(Handed(spans[1..], source), source, target, translator))
    ensures Concat(spans) == Weave(Around(spans, source), Handed(spans, source))
    ensures Concat(Pieces(spans, source, target, translator)) ==
      Weave(Around(spans, source), Answers(Handed(spans, source), source, target, translator))
  {
    hide Weave, Trimmed, HasScript;
    var cores, gaps := Handed(spans[1..], source), Around(spans[1..], source);
    var answers := Answers(cores, source, target, translator);
    if HandedOver(spans[0], source) {
      var (lead, core, trail) := Trimmed(spans[0].text);
      WeaveCore(lead, core, trail, gaps, cores);
      WeaveCore(lead, translator(core, source, target), trail, gaps, answers);
      assert ([core] + cores)[1..] == cores;
    } else {
      WeavePrefix(spans[0].text, gaps, cores);
      WeavePrefix(spans[0].text, gaps, answers);
      assert [] + cores == cores;
    }
  }

  /** What of a text no backend ever sees: everything before, between and after the cores. */
  function Untouched(config: Config, text: string): (gaps: seq<string>)
    ensures |gaps| == |Asked(config, text)| + 1
  {
    if Applies(config, text) then Around(SpansOf(config, text), Source(config, text).value) else [text]
  }

  /**
   Whatever the backend answers, only the cores it was asked for are replaced, each by its own answer and in
   order; every other character is where it was.
   */
  lemma OnlyCoresAreReplaced(config: Config, text: string, translator: Translator)
    ensures var gaps, asked, outcome := Untouched(config, text), Asked(config, text), Translated(config, text, translator);
      && text == Weave(gaps, asked)
      && outcome.effective ==
        if outcome.applied then Weave(gaps, Answers(asked, outcome.source.value, config.target, translator)) else text
  {
    hide Source, Pieces, Split, Handed, Around, HasScript;
    if Applies(config, text) {
      SpansMakeTheText(config, text);
      SpansAreWoven(SpansOf(config, text), Source(config, text).value, config.target, translator);
    }
  }

  lemma SpansMakeTheText(config: Config, text: string)
    ensures Concat(SpansOf(config, text)) == text
  {
    hide Split;
    SplitIsAPartition(text);
    if text != "" {
      assert [Span(text, false)][1..] == [];
      assert Concat([Span(text, false)]) == text + "";
    }
  }

  /** The spans that are left when a translation made some plain runs empty. */
  function NonEmpty(spans: seq<Span>): seq<Span> {
    if spans == [] then []
    else if spans[0].text == "" then NonEmpty(spans[1..])
    else [spans[0]] + NonEmpty(spans[1..])
  }

  lemma {:induction false} NonEmptyKeepsText(spans: seq<Span>)
    ensures Concat(NonEmpty(spans)) == Concat(spans)
  {
    if spans != [] {
      NonEmptyKeepsText(spans[1..]);
      if spans[0].text != "" {
        ConcatCons(spans[0], NonEmpty(spans[1..]));
      }
    }
  }

  lemma QuoteFreePiece(span: Span, source: string, target: string, translator: Translator)
    requires !span.protected && QuoteFree(span.text)
    requires forall core :: QuoteFree(translator(core, source, target))
    ensures QuoteFree(Piece(span, source, target, translator))
  {
    var (lead, core, trail) := Trimmed(span.text);
    assert forall c :: c in lead || c in trail ==> c in lead + core + trail;
  }

  /** With quote-free answers the pieces, without the empty ones, are again an alternation with the same literals. */
  lemma {:induction false} PiecesAlternate(spans: seq<Span>, source: string, target: string, translator: Translator)
    requires Alternating(spans)
    requires forall core :: QuoteFree(translator(core, source, target))
    ensures var after := NonEmpty(Pieces(spans, source, target, translator));
      Alternating(after) && Literals(after) == Literals(spans)
      && (spans != [] && spans[0].protected ==> after != [] && after[0] == spans[0])
      && (|spans| > 1 && spans[0].protected ==> |after| >= 1)
      && (spans == [] ==> after == [])
      && (|after| > 1 ==> |spans| > 1)
  {
    if spans != [] {
      hide Piece, Scan;
      var rest := Pieces(spans[1..], source, target, translator);
      PiecesAlternate(spans[1..], source, target, translator);
      var first := Span(Piece(spans[0], source, target, translator), spans[0].protected);
      assert Pieces(spans, source, target, translator)[1..] == rest;
      if spans[0].protected {
        ProtectedPiece(spans[0], source, target, translator);
        var after := NonEmpty(rest);
        assert ([first] + after)[1..] == after;
      } else {
        QuoteFreePiece(spans[0], source, target, translator);
        var after := NonEmpty(rest);
        assert ([first] + after)[1..] == after;
        if |spans| > 1 {
          assert spans[1..][0] == spans[1];
        }
      }
    }
  }

  lemma ProtectedPiece(span: Span, source: string, target: string, translator: Translator)
    requires span.protected
    ensures Piece(span, source, target, translator) == span.text
  {
  }

  /** Re-splitting the effective text finds the same literals, in the same order, as the original. */
  lemma LiteralsSurvive(config: Config, text: string, translator: Translator)
    requires config.preserve
    requires forall core, source, target :: QuoteFree(translator(core, source, target))
    ensures Literals(Split(Translated(config, text, translator).effective)) == Literals(Split(text))
  {
    if Applies(config, text) {
      var source := Source(config, text).value;
      var pieces := Pieces(Split(text), source, config.target, translator);
      SplitAlternates(text);
      PiecesAlternate(Split(text), source, config.target, translator);
      NonEmptyKeepsText(pieces);
      SplitIsUnique(NonEmpty(pieces));
    }
  }
}
