# Crypto news aggregator: the text and news core in Dafny

This project models the Python core of a cryptocurrency news aggregator and
proves properties of the model:

- **`enhanced_text_cleaner.py`**: the configurable HTML cleaner.
  - Cleaning levels (`CleaningLevel`) and the cleaner configuration.
  - The result record and its metadata dictionary.
  - The `clean_text` pipeline: tag extraction, custom replacements, URL
    placeholders, the character-class filter, lowercasing, word-length
    normalisation and URL restoration.
  - Modules `EnhancedTextCleaner` and `UrlScan`. `UrlScan` models the
    `re.findall` URL scan.
- **`text_cleaner.py`**: the simple cleaner (delete non-letters, collapse
  whitespace, lowercase). Module `TextCleaner`.
- **`text_processing.py`**: `clean_text`, `extract_keywords` (word counting
  and a stable sort by frequency) and `summarize_text`. Module
  `TextProcessing`.
- **`news_collector.py`**: `fetch_crypto_news` over the three feeds,
  `clean_summary` and `parse_date`. Module `NewsCollector`.
- **`sentiment_analyzer.py`**: the sentiment labels, `round(x, 3)` and
  `to_dict`. Module `SentimentAnalyzer`.
- **`classification.py`**: `analyze_sentiment` with its empty-text shortcut
  and its error outcome. Module `Classification`. Its dataclass, also
  called `SentimentResult` in Python, is `ClassificationResult` here so
  that it can sit beside the analyser's record.

Shared modules:

- `PyText`: Python's string operations. These are `str.lower`,
  `str.split` and `' '.join`, `str.strip`, `str.replace`, slicing `s[:n]`,
  `re.sub` with a class, decimal rendering and string comparison.
- `StableSort`: `list.sort` / `sorted` with a key and `reverse=True`. Python
  sorts stably, so the model sorts by stable insertion. Elements with equal
  keys keep their order.
- `Seqs`, `Wrappers` and `PyDict`: small sequence facts, `Option`, and the
  values a result dictionary holds.

The code works in two styles, and the model follows each:

- **Loops become methods.** The replacement loop, the URL loops, the
  counting loop, the article-collection loops and the date-format loop
  become methods with loop invariants. Each method is proved equal to a
  specification function.
- **Expressions become functions.** Regex substitutions, `split`/`join`,
  slicing and the label thresholds become functions.

The properties proved about those functions include:

- the character sets each cleaner can output;
- idempotence of the simple cleaner;
- that a cleaned text splits back into the body's words followed by the
  kept URLs;
- the truncation bound;
- keywords that are distinct, ranked by frequency and tie-ordered by
  first occurrence;
- that a summary re-splits into the sentences kept;
- that fetched articles are capped, sorted newest first and come only
  from feeds that answered 200;
- dictionary round-trips for the result records.

**URL preservation in the configurable cleaner.** The `preserve_urls`
option and the step "Restore URLs if they were preserved"
(enhanced_text_cleaner.py:179-182) suggest that captured URLs come back.
The placeholders that stand in for them (enhanced_text_cleaner.py:145) are
not protected, though:

- The character filter (enhanced_text_cleaner.py:167) replaces `_` with a
  space unless `_` is in `preserved_punctuation`.
- Lowercasing (enhanced_text_cleaner.py:170-171) turns `__URL_0__` into
  `__url_0__`, which the restoring `replace` never matches.

The STANDARD configuration with `preserve_urls` and
`preserved_punctuation=".,!$%"` (test_cleaner.py:65-71) meets both. The
model follows the code:

- `RestorationNoOp` shows that restoration changes nothing unless case is
  preserved and `_` survives the filter.
- `LoneUrlLostWhenLowercased` shows a lone URL coming out as `__url_0__`
  under the default lowercasing. This holds at STANDARD level, with URLs
  and `_` preserved, no custom replacements and a minimum word length of
  at most 9.
- `LoneUrlRestored` shows that the URL does come back under the same
  conditions when case is preserved as well.

## Model

| member | source | states |
|---|---|---|
| EnhancedTextCleaner.LevelFromValue | enhanced_text_cleaner.py:9-13 | `CleaningLevel(v)` finds only a level whose value is `v` |
| EnhancedTextCleaner.LevelValueRoundTrip | enhanced_text_cleaner.py:9-13 | every level is found again from its value string |
| EnhancedTextCleaner.CleaningResult.ToString | enhanced_text_cleaner.py:62-63 | `str(result)` is exactly the cleaned text, so its length is the recorded `cleaned_length` |
| EnhancedTextCleaner.CleaningResult.GetMetadataDict | enhanced_text_cleaner.py:65-75 | the dictionary has exactly the seven metadata keys, each holding its field, the level as its value string |
| EnhancedTextCleaner.MetadataDictRoundTrip | enhanced_text_cleaner.py:65-75 | the metadata can be read back whole from its dictionary |
| EnhancedTextCleaner.ApplyReplacementsInOrder | enhanced_text_cleaner.py:137-138 | applying the replacements is applying a first part of them, then the rest, in mapping order |
| EnhancedTextCleaner.ReplaceEach | enhanced_text_cleaner.py:137-138 | the replacement loop applies every `(old, new)` pair in mapping order |
| EnhancedTextCleaner.Placeholder | enhanced_text_cleaner.py:145 | the placeholder for URL `i` is made of letters, digits and underscores and contains `U` and `_` |
| EnhancedTextCleaner.PlaceholderInjective | enhanced_text_cleaner.py:144-145 | different URL indices get different placeholders: the index reads back from the placeholder |
| EnhancedTextCleaner.FirstPlaceholder | enhanced_text_cleaner.py:145 | the first placeholder is `__URL_0__` |
| EnhancedTextCleaner.PlaceholderIsWord | enhanced_text_cleaner.py:145 | a placeholder is one whitespace-free word, so normalisation keeps it whole |
| EnhancedTextCleaner.TokeniseUrls | enhanced_text_cleaner.py:144-145 | the loop replaces each found URL in turn by its numbered placeholder |
| EnhancedTextCleaner.TokeniseLone | enhanced_text_cleaner.py:144-145 | a text that is one URL becomes the first placeholder |
| EnhancedTextCleaner.PrefixUrlCorruptsLater | enhanced_text_cleaner.py:144-145 | when a found URL is a prefix of a later found URL, replacing the first also rewrites the later one, which then starts with `__URL_0__` |
| EnhancedTextCleaner.RestoreUrls | enhanced_text_cleaner.py:180-182 | the loop replaces each placeholder in turn by its URL |
| EnhancedTextCleaner.RestoreFirst | enhanced_text_cleaner.py:180-182 | the first placeholder is restored to its URL |
| EnhancedTextCleaner.RestoreAbsent | enhanced_text_cleaner.py:180-182 | restoring a text without `U` or without `_` changes nothing |
| EnhancedTextCleaner.BuildAllowPattern | enhanced_text_cleaner.py:148-166 | the class matches a character exactly when it is allowed. Letters and whitespace always match. Digits match iff numbers are preserved or the level is not STRICT. Other characters match iff they are preserved punctuation and the level is not STRICT |
| EnhancedTextCleaner.FilterText | enhanced_text_cleaner.py:165-167 | every character outside the allow-set becomes one space and every other one stays |
| EnhancedTextCleaner.PlaceholderAllowed | enhanced_text_cleaner.py:158-163 | at STANDARD level with `_` preserved, every placeholder character is allowed |
| EnhancedTextCleaner.PlaceholderSurvivesFilter | enhanced_text_cleaner.py:165-167 | at STANDARD level with `_` preserved, a placeholder is still in place after filtering |
| EnhancedTextCleaner.StrictKeepsOnlyLetters | enhanced_text_cleaner.py:153-167 | at STRICT level without preserved numbers, the cleaned text holds only ASCII letters and spaces |
| EnhancedTextCleaner.LowercasedWithoutPreserveCase | enhanced_text_cleaner.py:170-171 | without `preserve_case`, no capital survives lowercasing or normalisation |
| EnhancedTextCleaner.LongEnough | enhanced_text_cleaner.py:174-177 | exactly the words at least `min_word_length` long are kept: each as often as in the input, in input order (a subsequence), and nothing else |
| EnhancedTextCleaner.NormaliseShape | enhanced_text_cleaner.py:174-177 | normalised text has single spaces between words and none at the ends; it splits into the long-enough words of the input |
| EnhancedTextCleaner.NormaliseChars | enhanced_text_cleaner.py:174-177 | normalised text holds only spaces and non-space characters of its input |
| EnhancedTextCleaner.NormaliseWord | enhanced_text_cleaner.py:174-177 | normalising a single long-enough word gives the word back |
| EnhancedTextCleaner.FindWholeUrl | enhanced_text_cleaner.py:143 | a text that is exactly one URL match is found as that single URL |
| EnhancedTextCleaner.LoneUrlFiltered | enhanced_text_cleaner.py:137-167 | at STANDARD level with URLs and `_` preserved and no custom replacements, a lone URL is found and filtered to the first placeholder |
| EnhancedTextCleaner.LoneUrlRestored | enhanced_text_cleaner.py:137-182 | at STANDARD level with URLs, case and `_` preserved, no custom replacements and a minimum word length of at most 9, a lone URL comes out of cleaning unchanged |
| EnhancedTextCleaner.LowerFirstPlaceholder | enhanced_text_cleaner.py:170-171 | lowercasing turns `__URL_0__` into `__url_0__` |
| EnhancedTextCleaner.LoneUrlLostWhenLowercased | enhanced_text_cleaner.py:137-182 | at STANDARD level with URLs and `_` preserved, no custom replacements and a minimum word length of at most 9, but without `preserve_case`, a lone URL comes out as `__url_0__`: it is not restored |
| EnhancedTextCleaner.RestorationNoOp | enhanced_text_cleaner.py:179-182 | when lowercasing is on, or `_` is filtered out, restoration leaves the normalised text as it is |
| EnhancedTextCleaner.MinimalPassthrough | enhanced_text_cleaner.py:183-184 | at MINIMAL level the output is the parsed document text, untouched |
| EnhancedTextCleaner.DefaultConfigIsStandard | enhanced_text_cleaner.py:94-95 | with no configuration the level is STANDARD, numbers and URLs are not preserved, text is lowercased and the minimum word length is 1 |
| EnhancedTextCleaner.CleanTextSpec | enhanced_text_cleaner.py:77-200 | `cleaned_length` is the output length; user and level come from the configuration; timestamp is the fixed one. A parse failure gives empty text and zeroed metadata. Otherwise `original_length` is the input length, the time is the one measured and tags are recorded only when tracked |
| EnhancedTextCleaner.CleanText | enhanced_text_cleaner.py:77-200 | the cleaning method computes that specification, using the default configuration when none is given |
| UrlScan.SchemeLen | enhanced_text_cleaner.py:143 | `http[s]?://` matches 8 characters on `https://`, 7 on `http://`, otherwise none |
| UrlScan.RunLen | enhanced_text_cleaner.py:143 | the greedy `+` takes the longest leading run of class characters |
| UrlScan.RunLenExact | enhanced_text_cleaner.py:143 | a run of class characters followed by a non-class character (or the end) is exactly what the `+` takes |
| UrlScan.MatchLen | enhanced_text_cleaner.py:143 | a match at the head is a whole URL that cannot be extended |
| UrlScan.FindUrls | enhanced_text_cleaner.py:143 | every string found is a whole URL match |
| UrlScan.FindUrlsEmpty | enhanced_text_cleaner.py:143 | `re.findall` finds nothing exactly when the pattern matches at no position of the text |
| UrlScan.FindUrlsSkip | enhanced_text_cleaner.py:143 | positions where no match starts are skipped: scanning from them finds what scanning from the next match position finds |
| UrlScan.FindUrlsLeftmost | enhanced_text_cleaner.py:143 | the first URL found is the longest match at the leftmost position where the pattern matches, and the scan resumes right after it |
| UrlScan.FindUrlsInOrder | text_processing.py:46-47 | the URLs found occur in the text left to right, without overlapping |
| TextCleaner.Clean | text_cleaner.py:4-29 | a parse failure gives `""`. Any output holds only lowercase letters and single spaces between words |
| TextCleaner.PostParseShape | text_cleaner.py:22-29 | the output holds only lowercase ASCII letters and spaces, with no run of spaces and none at the ends |
| TextCleaner.PostParseLetters | text_cleaner.py:24-29 | the output's letters are exactly the input's ASCII letters, lowercased, in order |
| TextCleaner.PostParseIdempotent | text_cleaner.py:22-29 | cleaning an already cleaned text changes nothing |
| TextCleaner.DeletionJoinsLetters | text_cleaner.py:24 | digits and punctuation are deleted, not blanked, so the letters around them join |
| TextProcessing.CleanBody | text_processing.py:49-57 | punctuation becomes spaces, digits go unless kept, whitespace collapses |
| TextProcessing.BodyCollapsed | text_processing.py:56-57 | the body has single spaces between words and none at the ends |
| TextProcessing.BodyChars | text_processing.py:49-57 | the body holds only spaces and word characters, with no digit when numbers are not kept |
| TextProcessing.UrlIsWord | text_processing.py:46-47 | a `https?://\S+` match is one whitespace-free word |
| TextProcessing.AppendEach | text_processing.py:59-62 | the loop appends each URL after one space, in order |
| TextProcessing.SplitAppendUrls | text_processing.py:59-62 | appending URLs adds exactly those URLs as the last words |
| TextProcessing.BeforeLastSpace | text_processing.py:66 | `rsplit(' ', 1)[0]` is the prefix before the last space, or the whole text when it has none |
| TextProcessing.Shorten | text_processing.py:64-66 | a text longer than a non-zero limit is cut at its last space within the limit and marked `...`; otherwise unchanged |
| TextProcessing.TruncateChars | text_processing.py:64-66 | truncation adds no character except `.` |
| TextProcessing.CleanText | text_processing.py:17-73 | the method computes `clean_text`. Empty input gives `""`, a parse failure raises the error, and the result has no whitespace at either end |
| TextProcessing.EmptyInputGivesEmpty | text_processing.py:36-37 | empty input gives the empty string, whatever the parser would do |
| TextProcessing.CleanTextWords | text_processing.py:43-68 | when not truncated, the output's words are the body's words followed by the kept URLs. Without URLs the output is the body itself |
| TextProcessing.CleanTextLengthBound | text_processing.py:64-68 | with a positive limit the output is at most the limit plus 3 characters |
| TextProcessing.CleanTextChars | text_processing.py:49-68 | without URL preservation the output holds only spaces, `.` and word characters, with no digit unless numbers are kept |
| TextProcessing.Candidates | text_processing.py:79-81 | exactly the words that are not stop words and are longer than 2 are kept: each as often as in the input, in input order (a subsequence), and nothing else |
| TextProcessing.Dedup | text_processing.py:84-86 | the dictionary's keys are distinct and are exactly the words counted |
| TextProcessing.DedupFirstOccurrenceOrder | text_processing.py:84-86 | the dictionary's keys come in the order in which the words first occur |
| TextProcessing.EntriesInFirstOccurrenceOrder | text_processing.py:84-89 | `word_freq.items()` lists its words in first-occurrence order |
| TextProcessing.Entries | text_processing.py:84-89 | `word_freq.items()` pairs each distinct word, in first-occurrence order, with its number of occurrences |
| TextProcessing.CountStep | text_processing.py:85-86 | one counting step adds a new word as a key, and counts one more occurrence of the word |
| TextProcessing.CountWords | text_processing.py:84-86 | after the loop the keys are the distinct words in first-occurrence order, each mapped to its number of occurrences |
| TextProcessing.Firsts | text_processing.py:90 | the keyword list is the words of the entries, in order |
| TextProcessing.ExtractKeywords | text_processing.py:75-90 | the method returns the first `max_keywords` words of the entries stably sorted by count |
| TextProcessing.ByCountPreorder | text_processing.py:89 | comparing by count is a total preorder |
| TextProcessing.SortedEntryFacts | text_processing.py:84-89 | every sorted entry is a candidate word paired with its number of occurrences |
| TextProcessing.KeywordsAreCandidates | text_processing.py:79-90 | every keyword is a lowercased word of the text, not a stop word, longer than 2 |
| TextProcessing.KeywordsDistinct | text_processing.py:84-90 | no keyword is returned twice |
| TextProcessing.KeywordsBound | text_processing.py:90 | at most `max_keywords` keywords are returned |
| TextProcessing.KeywordsByFrequency | text_processing.py:79-90 | keywords come in non-increasing order of frequency, counted among the candidates and, equally, among all the words of `text.lower().split()` |
| TextProcessing.KeywordTiesInFirstOccurrenceOrder | text_processing.py:84-89 | among entries with equal counts the sort keeps the dictionary's order, and their words come in strictly increasing order of first occurrence among the candidates |
| TextProcessing.Pieces | text_processing.py:100 | `re.split(r'[.!?]+', …)` pieces contain no terminator |
| TextProcessing.PiecesAt | text_processing.py:100 | a terminator after terminator-free text splits off that text as the first piece |
| TextProcessing.SentencesAreSentences | text_processing.py:100-101 | every kept sentence is non-empty, stripped and terminator-free |
| TextProcessing.ResplitJoined | text_processing.py:100-107 | a summary joined from sentences, even after leading spaces, splits back into those sentences |
| TextProcessing.ResplitSummary | text_processing.py:100-107 | splitting a summary into sentences gives back exactly the sentences it was made of |
| TextProcessing.SummarizeShape | text_processing.py:96-108 | text without sentences comes back unchanged. Otherwise the summary ends with `.`, splits back into the first `max_sentences` sentences, and holds no more than that many |
| NewsCollector.CleanSummaryShape | news_collector.py:85-106 | a failed parse returns the summary unchanged. A parsed one is at most 303 characters. A short one is the collapsed text with the same words; a long one is its first 300 characters plus `...` |
| NewsCollector.CleanSummaryKeepsShort | news_collector.py:95-103 | an already clean summary of at most 300 characters is returned unchanged |
| NewsCollector.FirstRenderingChoice | news_collector.py:108-131 | the first format that parses decides the date; when none parses, the fixed fallback date |
| NewsCollector.ParseDate | news_collector.py:108-131 | the format loop returns the rendering of the first format that parses, else the fallback |
| NewsCollector.BuildArticle | news_collector.py:52-58 | the article has the stripped title, cleaned summary, link, parsed date and feed URL |
| NewsCollector.Articles | news_collector.py:51-58 | one article per feed entry |
| NewsCollector.SelectProvenance | news_collector.py:60-62 | the articles kept from a feed are articles of that feed with non-empty titles |
| NewsCollector.Titled | news_collector.py:60-62 | exactly the articles with a non-empty title, each as often as in the feed and in feed order |
| NewsCollector.SelectIsCappedFilter | news_collector.py:51-66 | below the cap, a feed adds exactly its first `max_articles - have` titled articles, in order. At or above the cap it adds only its first entry, if that has a title |
| NewsCollector.SelectStep | news_collector.py:51-66 | one entry step: a titled article is appended, and the inner loop stops once the count reaches the cap |
| NewsCollector.CollectEntries | news_collector.py:51-66 | the entry loop appends the titled articles of the feed until the count reaches the cap |
| NewsCollector.CollectFeed | news_collector.py:44-66 | a feed that did not answer 200 adds nothing; otherwise its selected articles are appended |
| NewsCollector.FailedFeedAddsNothing | news_collector.py:46-48 | a feed whose status is not 200 contributes no article |
| NewsCollector.FromFeedsStep | news_collector.py:41-73 | one feed step of the outer loop keeps the collected list a prefix of the final collection |
| NewsCollector.CollectFeeds | news_collector.py:41-73 | the feed loop collects, feed by feed, what each feed contributes |
| NewsCollector.FeedProvenance | news_collector.py:44-66 | every article one feed adds comes from a listed feed that answered 200 and has a title |
| NewsCollector.FromFeedsProvenance | news_collector.py:41-73 | the outer loop keeps every collected article traceable to a listed feed that answered 200 |
| NewsCollector.FetchCryptoNews | news_collector.py:18-78 | the method returns the collected articles sorted newest first and cut to `max_articles` |
| NewsCollector.FetchBound | news_collector.py:78 | at most `max_articles` articles are returned |
| NewsCollector.FetchProvenance | news_collector.py:18-78 | every returned article has a title and comes from one of the three feeds that answered 200 |
| NewsCollector.LaterOrSamePreorder | news_collector.py:76 | ordering by published date is a total preorder in which two articles tie exactly when their dates are the same string |
| NewsCollector.FetchOrder | news_collector.py:76 | the result is newest first, and articles with the same date keep their collection order |
| NewsCollector.PerFeedBreakDoesNotBound | news_collector.py:64-78 | the inner `break` does not cap the collection: with a cap of at most 1 and every feed answering 200 with a titled first entry, each feed still adds one article, and only the final slice restores the cap |
| NewsCollector.OneEach | news_collector.py:41-66 | with a cap of at most 1, every feed whose first entry has a title adds exactly one article |
| StableSort.SortPermutation | news_collector.py:76 | sorting neither loses nor adds elements |
| StableSort.SortSorted | news_collector.py:76 | with `reverse=True`, keys come out in non-increasing order |
| StableSort.SortStable | news_collector.py:76 | elements with equal keys keep their relative order |
| StableSort.TiesSubsequence | text_processing.py:89 | the elements whose key equals `e`'s form a subsequence of the list: they keep their order |
| StableSort.SortDistinct | text_processing.py:89 | sorting a list without repeats gives a list without repeats |
| StableSort.InsertMembers | text_processing.py:89 | inserting adds exactly the new element to the members |
| PyText.LowerHasNoUpper | text_cleaner.py:29 | `str.lower()` leaves no ASCII capital |
| PyText.Keep | text_cleaner.py:24 | deleting by a class leaves only characters of the input that are in the class, and leaves the text unchanged when all belong. Order and completeness are in `KeepFilter` |
| PyText.KeepFilter | text_cleaner.py:24 | deleting by a class keeps every character of the class, as often as it occurs and in input order, and nothing else |
| PyText.Blank | enhanced_text_cleaner.py:167 | substituting a space for each character outside the class keeps the length, and position by position the kept characters |
| PyText.SplitWords | text_cleaner.py:27 | `str.split()` gives non-empty words without whitespace |
| PyText.SplitJoin | text_cleaner.py:27 | words joined by single spaces split back into the same words |
| PyText.CollapseShape | text_cleaner.py:27 | `' '.join(s.split())` has single spaces between words and none at the ends, and keeps the words |
| PyText.CollapseFixpoint | text_cleaner.py:27 | collapsing already collapsed text changes nothing |
| PyText.Strip | text_processing.py:68 | `str.strip()` leaves no whitespace at either end and adds no character |
| PyText.SplitStrip | text_processing.py:101 | stripping does not change the words of a text |
| PyText.ReplaceWhole | enhanced_text_cleaner.py:145 | replacing a whole non-empty text by a replacement gives the replacement |
| PyText.ReplaceAbsent | enhanced_text_cleaner.py:182 | replacing a target that cannot occur leaves the text unchanged |
| PyText.Take | text_processing.py:90 | `s[:n]` is a prefix of length `n` clipped to the length, and for negative `n` drops the last `-n` elements |
| PyText.NatToStringRoundTrip | enhanced_text_cleaner.py:145 | the decimal rendering of a URL index reads back as the index |
| PyText.StrLeTotal | news_collector.py:76 | any two dates compare as strings |
| PyText.StrLeTransitive | news_collector.py:76 | string comparison is transitive |
| PyText.StrLeAntisymmetric | news_collector.py:76 | strings comparing both ways are equal |
| SentimentAnalyzer.Round3 | sentiment_analyzer.py:37-38 | `round(x, 3)` is a whole number of thousandths within half a thousandth of `x` |
| SentimentAnalyzer.Round3Exact | sentiment_analyzer.py:37-38 | a value that already is a number of thousandths rounds to itself |
| SentimentAnalyzer.Round3Idempotent | sentiment_analyzer.py:37-38 | rounding twice is rounding once |
| SentimentAnalyzer.SentimentResult.SentimentLabel | sentiment_analyzer.py:16-23 | Positive iff polarity > 0.3, Negative iff < -0.3, Neutral iff between, bounds included |
| SentimentAnalyzer.SentimentResult.SubjectivityLabel | sentiment_analyzer.py:25-32 | Very Subjective iff > 0.7, Somewhat Subjective iff in (0.3, 0.7], Objective iff ≤ 0.3 |
| SentimentAnalyzer.SentimentResult.ToDict | sentiment_analyzer.py:34-44 | the dictionary has the seven keys, the scores rounded to within half a thousandth, and the labels computed from the unrounded scores |
| SentimentAnalyzer.RoundedPolarityBesideLabel | sentiment_analyzer.py:34-44 | a polarity of 0.3004 is shown as 0.3 beside the label Positive, although 0.3 itself is Neutral |
| SentimentAnalyzer.AnalyzeSentiment | sentiment_analyzer.py:46-92 | the result carries the scorer's scores, the text length and the user (by default `kaxm23`), and the default timestamp when none is given |
| SentimentAnalyzer.LabelsDependOnScoresOnly | sentiment_analyzer.py:80-92 | texts with equal scores get equal labels, whatever the user or timestamp |
| Classification.ClassificationResult.ToDict | classification.py:24-33 | the dictionary has the six keys, each holding its field unrounded |
| Classification.DictRoundTrip | classification.py:24-33 | a result can be read back whole from its dictionary |
| Classification.SentimentLabelOf | classification.py:71-77 | Positive iff polarity > 0.3, Negative iff < -0.3, Neutral otherwise |
| Classification.SubjectivityLabelOf | classification.py:79-85 | Very Subjective iff > 0.7, Somewhat Subjective iff in (0.3, 0.7], Objective otherwise |
| Classification.AnalyzeSentiment | classification.py:39-99 | a result carries the timestamp and user given (by default `2025-02-08 22:38:46` and `kaxm23`). The error is raised exactly when the text is non-empty and scoring fails |
| Classification.EmptyTextIsNeutral | classification.py:56-64 | empty text is Neutral and Objective with zero scores, without scoring |
| Classification.EmptyShortcutAgrees | classification.py:56-85 | the empty-text labels are the ones the thresholds give for zero scores |
| Classification.LabelsMatchAnalyzer | classification.py:71-85 | the classifier's labels are the analyser's labels for the same scores |
| Classification.AgreesWithAnalyzer | classification.py:66-94 | on non-empty text with the same scores, the classifier and the analyser agree on scores, labels, timestamp and user |

## Left out

- HTML parsing: BeautifulSoup is not part of this model. What it produces
  is a parameter: the document text, the element texts per tag and the tag
  names (`Document`, `ParseOutcome`), or the parsed text (`Option<string>`).
  Its failure is the `None`/`ParseFailed` case.
- Unicode character classes: `\w`, `\s`, `\d` and `str.lower()` are
  modelled on ASCII letters and digits and on Python's ASCII whitespace set.
  Non-ASCII letters, digits and case mappings are not modelled.
- The network and feed parsing: `feedparser.parse` is the `fetch` function
  of a `World` parameter. It gives a status and entries (`Feed`), or
  `FetchFailed` for the exception that skips a feed.
- `time.sleep(1)` between feeds, logging and printed messages are left out.
  They change no result.
- `datetime.strptime`/`strftime` are the `render` parameter (one rendering
  per format).
- Clocks: the processing time is a parameter. The fixed timestamps of the
  source are constants, as written.
- TextBlob is a scorer parameter: `Scores` for the analyser, and an
  `Option` for the classifier, whose `None` stands for a scoring exception.
- Floating point: scores and times are exact reals.
  - `SentimentAnalyzer.Round3` rounds the exact value half-to-even.
  - Python rounds the nearest binary double. On values such as 2.675 that
    choice can differ by a thousandth.
- EnhancedTextCleaner.CleanTextSpec: `html_parser` and `strip_newlines` are
  carried in the configuration but do not affect the result. The parser is
  a parameter, and `strip_newlines` is never read by the code.
- EnhancedTextCleaner.ReplaceEach: `custom_replacements` is a dictionary
  iterated in insertion order. It is modelled as the sequence of its
  items.
- UrlScan.FindUrls: the `%[0-9a-fA-F]{2}` alternative of the URL pattern is
  not modelled separately. `%` already lies in the `$-_` range of the
  class, so the matches are the same.
- TextProcessing.CleanText: the body is computed before the URLs are
  appended. `re.findall` runs on the parsed text, so the appended URLs are
  the URLs found there. A parser failure is the only exception modelled.
  It becomes `TextProcessingError`.
- TextProcessing.ExtractKeywords: the `except` branch that returns `[]`
  cannot be reached with string input and is not modelled.
- TextProcessing.SummarizeShape: the `except` branch that returns the text is
  not modelled for the same reason.
- NewsCollector.FetchCryptoNews: the outer `NewsCollectionError` cannot be
  reached with the feeds as parameters and is not modelled.
- The `__main__` demonstration blocks and the test scripts are not part of
  this model.
