/**
 * The configurable HTML-to-text cleaner: cleaning levels, the configuration,
 * the metadata record, and `clean_text` from the point where the HTML parser
 * has produced the document's text.
 *
 * After parsing, a non-MINIMAL run applies the custom replacements, swaps
 * each found URL for a placeholder `__URL_i__`, blanks every character
 * outside the allow-set, optionally lowercases, collapses whitespace while
 * dropping short words, and puts the URLs back. A MINIMAL run returns the
 * parsed text as it is.
 */
module EnhancedTextCleaner {
  import opened Wrappers
  import opened PyText
  import opened UrlScan
  import opened PyDict
  import opened Seqs

  // ---------------------------------------------------------------------
  // Data model
  // ---------------------------------------------------------------------

  datatype CleaningLevel = Minimal | Standard | Strict {
    /** `level.value` */
    function Value(): string {
      match this
      case Minimal => "minimal"
      case Standard => "standard"
      case Strict => "strict"
    }
  }

  /** `CleaningLevel(v)`: the level whose value is `v`. */
  function LevelFromValue(v: string): (r: Option<CleaningLevel>)
    ensures r.Some? ==> r.value.Value() == v
  {
    if v == "minimal" then Some(Minimal)
    else if v == "standard" then Some(Standard)
    else if v == "strict" then Some(Strict)
    else None
  }

  lemma LevelValueRoundTrip(level: CleaningLevel)
    ensures LevelFromValue(level.Value()) == Some(level)
  {
  }

  /** `TextCleanerConfig`; a `None` replacement mapping or tag list is the
      empty one. The mapping is kept in its iteration order. */
  datatype TextCleanerConfig = TextCleanerConfig(
    preserveNumbers: bool,
    preserveCase: bool,
    preservedPunctuation: string,
    htmlParser: string,
    stripNewlines: bool,
    preserveUrls: bool,
    minWordLength: int,
    customReplacements: seq<(string, string)>,
    extractTags: seq<string>,
    cleaningLevel: CleaningLevel,
    trackMetadata: bool,
    user: string)

  /** `TextCleanerConfig()` with every default. */
  const DefaultConfig: TextCleanerConfig :=
    TextCleanerConfig(false, false, "", "html.parser", true, false, 1, [], [], Standard, true, "kaxm23")

  /** The timestamp written into every metadata record. */
  const CleanedAt: string := "2025-02-08 22:06:34"

  datatype CleaningMetadata = CleaningMetadata(
    timestampUtc: string,
    user: string,
    originalLength: int,
    cleanedLength: int,
    removedTags: seq<string>,
    cleaningLevel: CleaningLevel,
    processingTimeMs: real)

  const MetadataKeys: set<string> :=
    {"timestamp_utc", "user", "original_length", "cleaned_length", "removed_tags",
     "cleaning_level", "processing_time_ms"}

  datatype CleaningResult = CleaningResult(text: string, metadata: CleaningMetadata) {

    /** The recorded cleaned length is the length of the text. */
    predicate Consistent() {
      metadata.cleanedLength == |text|
    }

    /** `str(result)`: the cleaned text, whose length the metadata records. */
    function ToString(): (s: string)
      ensures s == text
      ensures Consistent() ==> |s| == metadata.cleanedLength
    {
      text
    }

    /** `get_metadata_dict()`: every metadata field under its Python name,
        the level as its string value. */
    function GetMetadataDict(): (d: map<string, DictValue>)
      ensures d.Keys == MetadataKeys
      ensures d["timestamp_utc"] == Str(metadata.timestampUtc) && d["user"] == Str(metadata.user)
      ensures d["original_length"] == Int(metadata.originalLength)
      ensures d["cleaned_length"] == Int(metadata.cleanedLength)
      ensures d["removed_tags"] == StrList(metadata.removedTags)
      ensures d["cleaning_level"] == Str(metadata.cleaningLevel.Value())
      ensures d["processing_time_ms"] == Real(metadata.processingTimeMs)
    {
      map[
        "timestamp_utc" := Str(metadata.timestampUtc),
        "user" := Str(metadata.user),
        "original_length" := Int(metadata.originalLength),
        "cleaned_length" := Int(metadata.cleanedLength),
        "removed_tags" := StrList(metadata.removedTags),
        "cleaning_level" := Str(metadata.cleaningLevel.Value()),
        "processing_time_ms" := Real(metadata.processingTimeMs)]
    }
  }

  /** Reads a metadata record back from its dictionary form. */
  function MetadataFromDict(d: map<string, DictValue>): Option<CleaningMetadata> {
    if MetadataKeys <= d.Keys
       && d["timestamp_utc"].Str? && d["user"].Str? && d["original_length"].Int?
       && d["cleaned_length"].Int? && d["removed_tags"].StrList? && d["cleaning_level"].Str?
       && d["processing_time_ms"].Real? && LevelFromValue(d["cleaning_level"].s).Some?
    then
      Some(CleaningMetadata(d["timestamp_utc"].s, d["user"].s, d["original_length"].i,
        d["cleaned_length"].i, d["removed_tags"].items, LevelFromValue(d["cleaning_level"].s).value,
        d["processing_time_ms"].r))
    else None
  }

  /** The metadata dictionary loses nothing: the record can be read back from it. */
  lemma MetadataDictRoundTrip(result: CleaningResult)
    ensures MetadataFromDict(result.GetMetadataDict()) == Some(result.metadata)
  {
    LevelValueRoundTrip(result.metadata.cleaningLevel);
  }

  // ---------------------------------------------------------------------
  // The parsed document (the HTML parser itself is not modelled)
  // ---------------------------------------------------------------------

  /** What the parser makes of the input: the whole text with each piece
      stripped, the names of all tags in document order, and for each tag
      name the stripped texts of its elements in document order. */
  datatype Document = Document(
    text: string,
    tagNames: seq<string>,
    elementTexts: map<string, seq<string>>)
  {
    function ElementsOf(tag: string): seq<string> {
      if tag in elementTexts then elementTexts[tag] else []
    }
  }

  datatype ParseOutcome = Parsed(doc: Document) | ParseFailed

  /** The texts of the elements of each requested tag, tag by tag. */
  function SelectedTexts(doc: Document, tags: seq<string>): seq<string> {
    if tags == [] then [] else doc.ElementsOf(tags[0]) + SelectedTexts(doc, tags[1..])
  }

  /** The text the cleaning starts from: the whole document, or at a level
      other than MINIMAL with tags requested, the selected elements' texts
      joined by single spaces. */
  function ExtractedText(doc: Document, cfg: TextCleanerConfig): string {
    if cfg.cleaningLevel == Minimal then doc.text
    else if cfg.extractTags != [] then Join(" ", SelectedTexts(doc, cfg.extractTags))
    else doc.text
  }

  // ---------------------------------------------------------------------
  // Stages of the pipeline
  // ---------------------------------------------------------------------

  /** The custom replacements, applied one after the other in mapping order. */
  function ApplyReplacements(s: string, reps: seq<(string, string)>): string {
    if reps == [] then s
    else
      var last := reps[|reps| - 1];
      ReplaceAll(ApplyReplacements(s, reps[..|reps| - 1]), last.0, last.1)
  }

  /** Applying a list of replacements is applying its first part, then the rest. */
  lemma {:induction false} ApplyReplacementsInOrder(s: string, first: seq<(string, string)>, rest: seq<(string, string)>)
    ensures ApplyReplacements(s, first + rest) == ApplyReplacements(ApplyReplacements(s, first), rest)
  {
    if rest == [] {
      assert first + rest == first;
    } else {
      assert (first + rest)[..|first + rest| - 1] == first + rest[..|rest| - 1];
      ApplyReplacementsInOrder(s, first, rest[..|rest| - 1]);
    }
  }

  /** One character of the URL pattern's repeated group
      `(?:[a-zA-Z]|[0-9]|[$-_@.&+]|[!*\\(\\),]|(?:%[0-9a-fA-F][0-9a-fA-F]))`;
      `$-_` is the range from '$' to '_', and the `%XX` branch adds nothing
      because '%' and the hex digits are already in that range. */
  predicate IsUrlChar(c: char) {
    IsAsciiLetter(c) || IsDigit(c) || ('$' <= c <= '_') || c in "@.&+" || c in "!*\\(),"
  }

  /** `f"__URL_{i}__"` */
  function Placeholder(i: nat): (p: string)
    ensures 'U' in p && '_' in p
    ensures forall c :: c in p ==> IsAsciiLetter(c) || IsDigit(c) || c == '_'
  {
    var p := "__URL_" + NatToString(i) + "__";
    assert p[0] == '_' && p[2] == 'U';
    p
  }

  /** Different URLs get different placeholders. */
  lemma PlaceholderInjective(i: nat, j: nat)
    ensures Placeholder(i) == Placeholder(j) ==> i == j
  {
    if Placeholder(i) == Placeholder(j) {
      var p := Placeholder(i);
      assert p[6..|p| - 2] == NatToString(i);
      assert Placeholder(j)[6..|p| - 2] == NatToString(j);
      NatToStringRoundTrip(i);
      NatToStringRoundTrip(j);
    }
  }

  /** Each URL in turn replaced everywhere by its placeholder. */
  function Tokenise(s: string, urls: seq<string>): string {
    if urls == [] then s
    else ReplaceAll(Tokenise(s, urls[..|urls| - 1]), urls[|urls| - 1], Placeholder(|urls| - 1))
  }

  /** When a found URL `u` is a prefix of a later one `u + r`, replacing
      `u` also rewrites the start of the later URL, which then begins with
      the first placeholder instead of `u`. */
  lemma PrefixUrlCorruptsLater(u: string, r: string)
    requires u != []
    ensures Tokenise(u + r, [u]) == Placeholder(0) + ReplaceAll(r, u, Placeholder(0))
  {
    assert [u][..0] == [];
    assert (u + r)[..|u|] == u && (u + r)[|u|..] == r;
  }

  /** Each placeholder in turn replaced everywhere by its URL. */
  function Restore(s: string, urls: seq<string>): string {
    if urls == [] then s
    else ReplaceAll(Restore(s, urls[..|urls| - 1]), Placeholder(|urls| - 1), urls[|urls| - 1])
  }

  /** The allow-set of the filter. */
  predicate Allowed(c: char, cfg: TextCleanerConfig) {
    || IsAsciiLetter(c)
    || (IsDigit(c) && (cfg.preserveNumbers || cfg.cleaningLevel != Strict))
    || (c in cfg.preservedPunctuation && cfg.cleaningLevel != Strict)
    || IsSpace(c)
  }

  function AllowFilter(cfg: TextCleanerConfig): char -> bool {
    c => Allowed(c, cfg)
  }

  /** One alternative of the regular-expression character class. */
  datatype ClassPart = AsciiLetters | Digits | Literal(chars: string) | Whitespace

  predicate PartMatches(part: ClassPart, c: char) {
    match part
    case AsciiLetters => IsAsciiLetter(c)
    case Digits => IsDigit(c)
    case Literal(chars) => c in chars
    case Whitespace => IsSpace(c)
  }

  predicate InClass(parts: seq<ClassPart>, c: char) {
    exists k :: 0 <= k < |parts| && PartMatches(parts[k], c)
  }

  /** The pieces of the character class the filter keeps, appended one by
      one as the configuration asks. */
  method BuildAllowPattern(cfg: TextCleanerConfig) returns (parts: seq<ClassPart>)
    ensures forall c :: InClass(parts, c) <==> Allowed(c, cfg)
    ensures forall c :: IsAsciiLetter(c) || IsSpace(c) ==> InClass(parts, c)
    ensures forall c :: IsDigit(c) && c !in cfg.preservedPunctuation ==>
      (InClass(parts, c) <==> cfg.preserveNumbers || cfg.cleaningLevel != Strict)
    ensures forall c :: !IsAsciiLetter(c) && !IsDigit(c) && !IsSpace(c) ==>
      (InClass(parts, c) <==> cfg.preservedPunctuation != "" && c in cfg.preservedPunctuation && cfg.cleaningLevel != Strict)
  {
    parts := [AsciiLetters];
    if cfg.preserveNumbers || cfg.cleaningLevel != Strict {
      parts := parts + [Digits];
    }
    if cfg.preservedPunctuation != "" && cfg.cleaningLevel != Strict {
      parts := parts + [Literal(cfg.preservedPunctuation)];
    }
    parts := parts + [Whitespace];
    forall c | Allowed(c, cfg) ensures InClass(parts, c) {
      if IsAsciiLetter(c) {
        assert PartMatches(parts[0], c);
      } else if IsSpace(c) {
        assert PartMatches(parts[|parts| - 1], c);
      } else if IsDigit(c) && (cfg.preserveNumbers || cfg.cleaningLevel != Strict) {
        assert PartMatches(parts[1], c);
      } else {
        assert PartMatches(parts[|parts| - 2], c);
      }
    }
  }

  /** `FilterStep` for the length test of `LongEnough`. */
  lemma LongEnoughStep(ws: seq<string>, rest: seq<string>, m: int)
    requires ws != []
    requires forall k :: 0 <= k < |rest| ==> rest[k] in ws[1..] && |rest[k]| >= m
    requires forall w :: multiset(rest)[w] == if |w| >= m then multiset(ws[1..])[w] else 0
    requires Subsequence(rest, ws[1..])
    ensures var r := (if |ws[0]| >= m then [ws[0]] else []) + rest;
      && (forall k :: 0 <= k < |r| ==> r[k] in ws && |r[k]| >= m)
      && (forall w :: multiset(r)[w] == if |w| >= m then multiset(ws)[w] else 0)
      && Subsequence(r, ws)
  {
    FilterStep(ws, rest, (w: string) => |w| >= m);
  }

  /** `[w for w in ws if len(w) >= m]`: every word of at least `m`
      characters, as often as it occurs and in its order in `ws`, and
      nothing else. */
  function LongEnough(ws: seq<string>, m: int): (r: seq<string>)
    ensures forall k :: 0 <= k < |r| ==> r[k] in ws && |r[k]| >= m
    ensures forall w :: multiset(r)[w] == if |w| >= m then multiset(ws)[w] else 0
    ensures Subsequence(r, ws)
  {
    if ws == [] then []
    else
      var rest := LongEnough(ws[1..], m);
      LongEnoughStep(ws, rest, m);
      (if |ws[0]| >= m then [ws[0]] else []) + rest
  }

  /** `' '.join(w for w in s.split() if len(w) >= m)` */
  function Normalise(s: string, m: int): string {
    Join(" ", LongEnough(Split(s), m))
  }

  /** The URLs found, after the replacements, when URLs are preserved. */
  function FoundUrls(text: string, cfg: TextCleanerConfig): seq<string> {
    if cfg.preserveUrls then FindUrls(ApplyReplacements(text, cfg.customReplacements), IsUrlChar) else []
  }

  /** The text after filtering, before lowercasing. */
  function Filtered(text: string, cfg: TextCleanerConfig): string {
    Blank(Tokenise(ApplyReplacements(text, cfg.customReplacements), FoundUrls(text, cfg)), AllowFilter(cfg))
  }

  /** The text after filtering and lowercasing. */
  function Cased(text: string, cfg: TextCleanerConfig): string {
    var filtered := Filtered(text, cfg);
    if cfg.preserveCase then filtered else Lower(filtered)
  }

  /** The text after normalisation, before the URLs are put back. */
  function Normalised(text: string, cfg: TextCleanerConfig): string {
    Normalise(Cased(text, cfg), cfg.minWordLength)
  }

  /** The cleaned text for the parsed text `text`. */
  function CleanedText(text: string, cfg: TextCleanerConfig): string {
    if cfg.cleaningLevel == Minimal then text
    else Restore(Normalised(text, cfg), FoundUrls(text, cfg))
  }

  function FailureResult(cfg: TextCleanerConfig): CleaningResult {
    CleaningResult("", CleaningMetadata(CleanedAt, cfg.user, 0, 0, [], cfg.cleaningLevel, 0.0))
  }

  function EffectiveConfig(config: Option<TextCleanerConfig>): TextCleanerConfig {
    if config.Some? then config.value else DefaultConfig
  }

  /** `clean_text(html_content, config)`, given what the parser made of the
      input and the measured processing time. */
  function CleanTextSpec(htmlContent: string, parsed: ParseOutcome, cfg: TextCleanerConfig, processingTimeMs: real): (r: CleaningResult)
    ensures r.Consistent()
    ensures r.metadata.user == cfg.user && r.metadata.cleaningLevel == cfg.cleaningLevel
    ensures r.metadata.timestampUtc == CleanedAt
    ensures parsed.ParseFailed? ==>
      r.text == "" && r.metadata.originalLength == 0 && r.metadata.cleanedLength == 0 &&
      r.metadata.removedTags == [] && r.metadata.processingTimeMs == 0.0
    ensures parsed.Parsed? ==>
      r.metadata.originalLength == |htmlContent| && r.metadata.processingTimeMs == processingTimeMs &&
      r.metadata.removedTags == (if cfg.trackMetadata then parsed.doc.tagNames else [])
  {
    match parsed
    case ParseFailed => FailureResult(cfg)
    case Parsed(doc) =>
      var cleaned := CleanedText(ExtractedText(doc, cfg), cfg);
      CleaningResult(cleaned, CleaningMetadata(CleanedAt, cfg.user, |htmlContent|, |cleaned|,
        if cfg.trackMetadata then doc.tagNames else [], cfg.cleaningLevel, processingTimeMs))
  }

  // ---------------------------------------------------------------------
  // clean_text
  // ---------------------------------------------------------------------

  /** Step 2: each custom replacement in mapping order. */
  method ReplaceEach(s: string, reps: seq<(string, string)>) returns (r: string)
    ensures r == ApplyReplacements(s, reps)
  {
    r := s;
    var k := 0;
    while k < |reps|
      invariant 0 <= k <= |reps|
      invariant r == ApplyReplacements(s, reps[..k])
    {
      assert reps[..k + 1][..k] == reps[..k];
      r := ReplaceAll(r, reps[k].0, reps[k].1);
      k := k + 1;
    }
    assert reps[..k] == reps;
  }

  /** Step 3: the i-th URL replaced everywhere by `__URL_i__`, in order. */
  method TokeniseUrls(s: string, urls: seq<string>) returns (r: string)
    ensures r == Tokenise(s, urls)
  {
    r := s;
    var i := 0;
    while i < |urls|
      invariant 0 <= i <= |urls|
      invariant r == Tokenise(s, urls[..i])
    {
      assert urls[..i + 1][..i] == urls[..i];
      r := ReplaceAll(r, urls[i], Placeholder(i));
      i := i + 1;
    }
    assert urls[..i] == urls;
  }

  /** Step 7: `__URL_i__` replaced everywhere by the i-th URL, in order. */
  method RestoreUrls(s: string, urls: seq<string>) returns (r: string)
    ensures r == Restore(s, urls)
  {
    r := s;
    var i := 0;
    while i < |urls|
      invariant 0 <= i <= |urls|
      invariant r == Restore(s, urls[..i])
    {
      assert urls[..i + 1][..i] == urls[..i];
      r := ReplaceAll(r, Placeholder(i), urls[i]);
      i := i + 1;
    }
    assert urls[..i] == urls;
  }

  /** Step 4: the filter, through the character class built for `cfg`. */
  method FilterText(s: string, cfg: TextCleanerConfig) returns (r: string)
    ensures r == Blank(s, AllowFilter(cfg))
  {
    var parts := BuildAllowPattern(cfg);
    r := Blank(s, c => InClass(parts, c));
    forall i | 0 <= i < |s| ensures r[i] == Blank(s, AllowFilter(cfg))[i] {
      assert InClass(parts, s[i]) == AllowFilter(cfg)(s[i]);
    }
  }

  method CleanText(htmlContent: string, parsed: ParseOutcome, config: Option<TextCleanerConfig>, processingTimeMs: real)
    returns (result: CleaningResult)
    ensures result == CleanTextSpec(htmlContent, parsed, EffectiveConfig(config), processingTimeMs)
  {
    var cfg := if config.Some? then config.value else DefaultConfig;
    if parsed.ParseFailed? {
      return FailureResult(cfg);
    }
    var doc := parsed.doc;
    var removedTags := if cfg.trackMetadata then doc.tagNames else [];
    var textContent := ExtractedText(doc, cfg);
    var cleanedText: string;
    if cfg.cleaningLevel != Minimal {
      var replaced := ReplaceEach(textContent, cfg.customReplacements);
      var urls: seq<string> := [];
      var tokenised := replaced;
      if cfg.preserveUrls {
        urls := FindUrls(replaced, IsUrlChar);
        tokenised := TokeniseUrls(replaced, urls);
      }
      cleanedText := FilterText(tokenised, cfg);
      if !cfg.preserveCase {
        cleanedText := Lower(cleanedText);
      }
      cleanedText := Normalise(cleanedText, cfg.minWordLength);
      if cfg.preserveUrls {
        cleanedText := RestoreUrls(cleanedText, urls);
      }
    } else {
      cleanedText := textContent;
    }
    result := CleaningResult(cleanedText, CleaningMetadata(CleanedAt, cfg.user, |htmlContent|, |cleanedText|,
      removedTags, cfg.cleaningLevel, processingTimeMs));
  }

  // ---------------------------------------------------------------------
  // Properties
  // ---------------------------------------------------------------------

  /** With no configuration the cleaner runs at STANDARD, keeps neither
      numbers nor URLs and lowercases. */
  lemma DefaultConfigIsStandard()
    ensures EffectiveConfig(None).cleaningLevel == Standard
    ensures !EffectiveConfig(None).preserveNumbers && !EffectiveConfig(None).preserveUrls
    ensures !EffectiveConfig(None).preserveCase && EffectiveConfig(None).minWordLength == 1
  {
  }

  /** At MINIMAL the result is the parser's whole text, untouched: no
      replacements, filtering, case change or word dropping, and the
      requested tags are ignored. */
  lemma MinimalPassthrough(htmlContent: string, doc: Document, cfg: TextCleanerConfig, t: real)
    requires cfg.cleaningLevel == Minimal
    ensures CleanTextSpec(htmlContent, Parsed(doc), cfg, t).text == doc.text
  {
  }

  /** Every character of the normalised text is a single space or a
      non-space character of its input. */
  lemma NormaliseChars(s: string, m: int)
    ensures forall c :: c in Normalise(s, m) ==> c == ' ' || (c in s && !IsSpace(c))
  {
    JoinWordsChars(s, LongEnough(Split(s), m));
  }

  /** Normalisation: whitespace collapsed to single inner spaces, every word
      at least the minimum length, and the surviving words in their order. */
  lemma NormaliseShape(s: string, m: int)
    ensures Collapsed(Normalise(s, m))
    ensures Split(Normalise(s, m)) == LongEnough(Split(s), m)
    ensures forall w :: w in Split(Normalise(s, m)) ==> |w| >= m
  {
    var ws := LongEnough(Split(s), m);
    SplitWords(s);
    assert forall k :: 0 <= k < |ws| ==> IsWord(ws[k]) by {
      forall k | 0 <= k < |ws| ensures IsWord(ws[k]) {
        var j :| 0 <= j < |Split(s)| && Split(s)[j] == ws[k];
      }
    }
    JoinCollapsed(ws);
    SplitJoin(ws);
  }

  /** Without `preserve_case` the text after the case stage, and after
      normalisation, has no uppercase letter. */
  lemma LowercasedWithoutPreserveCase(text: string, cfg: TextCleanerConfig)
    requires !cfg.preserveCase
    ensures forall c :: c in Cased(text, cfg) ==> !IsUpper(c)
    ensures forall c :: c in Normalised(text, cfg) ==> !IsUpper(c)
  {
    LowerHasNoUpper(Filtered(text, cfg));
    NormaliseChars(Cased(text, cfg), cfg.minWordLength);
  }

  lemma {:induction false} RestoreAbsent(t: string, urls: seq<string>, c: char)
    requires c == 'U' || c == '_'
    requires c !in t
    ensures Restore(t, urls) == t
  {
    if urls != [] {
      RestoreAbsent(t, urls[..|urls| - 1], c);
      ReplaceAbsent(t, Placeholder(|urls| - 1), urls[|urls| - 1], c);
    }
  }

  /** A placeholder is only found again when `_` survives the filter (it is
      preserved punctuation and the level is not STRICT) and the case is
      preserved (the lowercased `__url_i__` no longer matches). In every
      other configuration restoration changes nothing. */
  lemma RestorationNoOp(text: string, cfg: TextCleanerConfig)
    requires cfg.cleaningLevel != Minimal
    requires !cfg.preserveCase || cfg.cleaningLevel == Strict || '_' !in cfg.preservedPunctuation
    ensures CleanedText(text, cfg) == Normalised(text, cfg)
  {
    var n := Normalised(text, cfg);
    if !cfg.preserveCase {
      LowercasedWithoutPreserveCase(text, cfg);
      RestoreAbsent(n, FoundUrls(text, cfg), 'U');
    } else {
      assert !Allowed('_', cfg);
      assert '_' !in Filtered(text, cfg);
      NormaliseChars(Cased(text, cfg), cfg.minWordLength);
      RestoreAbsent(n, FoundUrls(text, cfg), '_');
    }
  }

  /** At STRICT without `preserve_numbers` only letters and single spaces
      are left. */
  lemma StrictKeepsOnlyLetters(text: string, cfg: TextCleanerConfig)
    requires cfg.cleaningLevel == Strict && !cfg.preserveNumbers
    ensures forall c :: c in CleanedText(text, cfg) ==> IsAsciiLetter(c) || c == ' '
  {
    RestorationNoOp(text, cfg);
    var filtered := Filtered(text, cfg);
    assert forall c :: c in filtered ==> IsAsciiLetter(c) || IsSpace(c);
    var cased := Cased(text, cfg);
    assert forall c :: c in cased ==> IsAsciiLetter(c) || IsSpace(c) by {
      forall c | c in cased ensures IsAsciiLetter(c) || IsSpace(c) {
        if !cfg.preserveCase {
          var i :| 0 <= i < |cased| && cased[i] == c;
          assert c == LowerChar(filtered[i]);
        }
      }
    }
    NormaliseChars(cased, cfg.minWordLength);
  }

  /** Every character of a placeholder passes the filter when `_` is
      preserved at STANDARD. */
  lemma PlaceholderAllowed(cfg: TextCleanerConfig, i: nat)
    requires cfg.cleaningLevel == Standard && '_' in cfg.preservedPunctuation
    ensures forall k :: 0 <= k < |Placeholder(i)| ==> AllowFilter(cfg)(Placeholder(i)[k])
  {
    var p := Placeholder(i);
    forall k | 0 <= k < |p| ensures Allowed(p[k], cfg) {
      assert p[k] in p;
    }
  }

  /** When `_` is preserved at STANDARD, every occurrence of a placeholder
      passes the filter unchanged. */
  lemma PlaceholderSurvivesFilter(s: string, cfg: TextCleanerConfig, i: nat, j: nat)
    requires cfg.cleaningLevel == Standard && '_' in cfg.preservedPunctuation
    requires OccursAt(Placeholder(i), s, j)
    ensures OccursAt(Placeholder(i), Blank(s, AllowFilter(cfg)), j)
  {
    var p := Placeholder(i);
    PlaceholderAllowed(cfg, i);
    var b := Blank(s, AllowFilter(cfg));
    forall k | 0 <= k < |p| ensures b[j + k] == p[k] {
      assert s[j + k] == s[j..j + |p|][k];
    }
    assert b[j..j + |p|] == p;
  }

  lemma FindWholeUrl(u: string)
    requires IsUrl(u, IsUrlChar)
    ensures FindUrls(u, IsUrlChar) == [u]
  {
    var k := SchemeLen(u);
    var m := RunLen(u[k..], IsUrlChar);
    assert m == |u| - k;
    assert MatchLen(u, IsUrlChar) == |u|;
    assert u[..|u|] == u && u[|u|..] == [];
  }

  lemma FirstPlaceholder()
    ensures Placeholder(0) == "__URL_0__"
  {
    assert NatToString(0) == "0";
  }

  /** A single word at least the minimum length is left as it is. */
  lemma NormaliseWord(w: string, m: int)
    requires IsWord(w) && |w| >= m
    ensures Normalise(w, m) == w
  {
    SplitWord(w);
    assert LongEnough([w], m) == [w];
  }

  /** A text that is a single URL reaches the filter as the placeholder
      `__URL_0__`, which passes it when `_` is preserved at STANDARD. */
  lemma LoneUrlFiltered(u: string, cfg: TextCleanerConfig)
    requires IsUrl(u, IsUrlChar)
    requires cfg.cleaningLevel == Standard && cfg.preserveUrls
    requires '_' in cfg.preservedPunctuation && cfg.customReplacements == []
    ensures FoundUrls(u, cfg) == [u]
    ensures Filtered(u, cfg) == Placeholder(0)
  {
    var p := Placeholder(0);
    assert ApplyReplacements(u, cfg.customReplacements) == u;
    FindWholeUrl(u);
    calc {
      Filtered(u, cfg);
      Blank(Tokenise(u, [u]), AllowFilter(cfg));
      == { TokeniseLone(u); }
      Blank(p, AllowFilter(cfg));
      == { PlaceholderAllowed(cfg, 0); BlankAllowed(p, AllowFilter(cfg)); }
      p;
    }
  }

  /** A text that is one URL is tokenised to the first placeholder. */
  lemma TokeniseLone(u: string)
    requires u != []
    ensures Tokenise(u, [u]) == Placeholder(0)
  {
    assert [u][..0] == [];
    ReplaceWhole(u, Placeholder(0));
  }

  /** A placeholder is a word: non-empty and without whitespace. */
  lemma PlaceholderIsWord(i: nat)
    ensures IsWord(Placeholder(i))
  {
    var p := Placeholder(i);
    forall k | 0 <= k < |p| ensures !IsSpace(p[k]) {
      assert p[k] in p;
    }
  }

  /** The first placeholder alone is restored to its URL. */
  lemma RestoreFirst(u: string)
    ensures Restore(Placeholder(0), [u]) == u
  {
    var p := Placeholder(0);
    assert [u][..0] == [];
    assert Restore(p, [u]) == ReplaceAll(Restore(p, []), p, u);
    PlaceholderIsWord(0);
    ReplaceWhole(p, u);
  }

  /** In a configuration where restoration works (URLs preserved,
      `_` preserved, case preserved, STANDARD, no replacements, a minimum
      word length of at most 9) a text that is a single URL comes back as
      itself. */
  lemma LoneUrlRestored(u: string, cfg: TextCleanerConfig)
    requires IsUrl(u, IsUrlChar)
    requires cfg.cleaningLevel == Standard && cfg.preserveUrls && cfg.preserveCase
    requires '_' in cfg.preservedPunctuation && cfg.customReplacements == [] && cfg.minWordLength <= 9
    ensures CleanedText(u, cfg) == u
  {
    LoneUrlFiltered(u, cfg);
    var p := Placeholder(0);
    calc {
      CleanedText(u, cfg);
      Restore(Normalised(u, cfg), [u]);
    == { assert Cased(u, cfg) == p;
         assert |p| == 9 by { FirstPlaceholder(); }
         PlaceholderIsWord(0);
         NormaliseWord(p, cfg.minWordLength); }
      Restore(p, [u]);
    == { RestoreFirst(u); }
      u;
    }
  }

  /** The first placeholder, lowercased. */
  lemma LowerFirstPlaceholder()
    ensures Lower(Placeholder(0)) == "__url_0__"
  {
    FirstPlaceholder();
    var q: string := "__url_0__";
    var l := Lower(Placeholder(0));
    forall k | 0 <= k < 9 ensures l[k] == q[k] {
    }
  }

  /** The same lone URL is lost once lowercasing is on: what is left is the
      lowercased placeholder. */
  lemma LoneUrlLostWhenLowercased(u: string, cfg: TextCleanerConfig)
    requires IsUrl(u, IsUrlChar)
    requires cfg.cleaningLevel == Standard && cfg.preserveUrls && !cfg.preserveCase
    requires '_' in cfg.preservedPunctuation && cfg.customReplacements == [] && cfg.minWordLength <= 9
    ensures CleanedText(u, cfg) == Lower(Placeholder(0))
  {
    LoneUrlFiltered(u, cfg);
    RestorationNoOp(u, cfg);
    var q := Lower(Placeholder(0));
    assert |Placeholder(0)| == 9 by { FirstPlaceholder(); }
    PlaceholderIsWord(0);
    assert IsWord(q);
    NormaliseWord(q, cfg.minWordLength);
    assert Cased(u, cfg) == q;
  }
}
