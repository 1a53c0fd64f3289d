/**
 * The plain-text utilities: `clean_text` from the point where the HTML
 * parser has produced the text, `extract_keywords` and `summarize_text`.
 */
module TextProcessing {
  import opened Wrappers
  import opened PyText
  import opened UrlScan
  import opened StableSort
  import opened Seqs

  // ---------------------------------------------------------------------
  // clean_text
  // ---------------------------------------------------------------------

  /** What `clean_text` gives back: the cleaned text, or the
      `TextProcessingError` it raises when parsing fails. */
  datatype CleanOutcome = Cleaned(text: string) | TextProcessingError

  /** `[\w\s]` */
  predicate WordOrSpace(c: char) { IsWordChar(c) || IsSpace(c) }

  predicate NotDigit(c: char) { !IsDigit(c) }

  /** The body before URLs are appended: each character that is neither a
      word character nor whitespace becomes a space, digit runs are deleted
      unless numbers are kept, and whitespace is collapsed. */
  function Body(text: string, preserveNumbers: bool): string {
    var blanked := Blank(text, WordOrSpace);
    Collapse(if preserveNumbers then blanked else Keep(blanked, NotDigit))
  }

  /** `text + f" {url}"` for each URL in turn. */
  function AppendUrls(text: string, urls: seq<string>): string {
    if urls == [] then text else AppendUrls(text, urls[..|urls| - 1]) + " " + urls[|urls| - 1]
  }

  /** `s.rsplit(' ', 1)[0]`: `s` up to its last space, or all of `s` when it
      has none. */
  function BeforeLastSpace(s: string): (r: string)
    ensures |r| <= |s| && r == s[..|r|]
    ensures ' ' !in s ==> r == s
    ensures ' ' in s ==> |r| < |s| && s[|r|] == ' ' && ' ' !in s[|r| + 1..]
  {
    if s == [] then []
    else if s[|s| - 1] == ' ' then s[..|s| - 1]
    else
      var init := s[..|s| - 1];
      assert s == init + [s[|s| - 1]];
      if ' ' in init then
        var r := BeforeLastSpace(init);
        assert s[|r| + 1..] == init[|r| + 1..] + [s[|s| - 1]];
        r
      else s
  }

  /** `text[:m].rsplit(' ', 1)[0] + '...'` */
  function Truncate(text: string, m: int): string {
    BeforeLastSpace(Take(text, m)) + "..."
  }

  /** `max_length and len(text) > max_length` */
  predicate Truncates(text: string, maxLength: Option<int>) {
    maxLength.Some? && maxLength.value != 0 && |text| > maxLength.value
  }

  /** The URLs that are appended: the matches of `https?://\S+` in the
      parsed text, when URLs are kept. */
  function KeptUrls(parsed: string, preserveUrls: bool): seq<string> {
    if preserveUrls then FindUrls(parsed, NotSpace) else []
  }

  /** `clean_text(text, …)`, given what the parser made of `text`; `None`
      when the parser fails. */
  function CleanTextSpec(text: string, parsed: Option<string>, preserveNumbers: bool, preserveUrls: bool,
                         maxLength: Option<int>): CleanOutcome
  {
    if text == [] then Cleaned([])
    else if parsed.None? then TextProcessingError
    else
      var joined := AppendUrls(Body(parsed.value, preserveNumbers), KeptUrls(parsed.value, preserveUrls));
      Cleaned(Strip(if Truncates(joined, maxLength) then Truncate(joined, maxLength.value) else joined))
  }

  /** The loop of step 7: each URL appended after one space. */
  method AppendEach(body: string, urls: seq<string>) returns (out: string)
    ensures out == AppendUrls(body, urls)
  {
    out := body;
    var i := 0;
    while i < |urls|
      invariant 0 <= i <= |urls|
      invariant out == AppendUrls(body, urls[..i])
    {
      assert urls[..i + 1][..i] == urls[..i];
      out := out + " " + urls[i];
      i := i + 1;
    }
    assert urls[..i] == urls;
  }

  /** Steps 3 to 6: punctuation to spaces, digits dropped unless kept,
      whitespace collapsed. */
  method CleanBody(t: string, preserveNumbers: bool) returns (body: string)
    ensures body == Body(t, preserveNumbers)
  {
    body := Blank(t, WordOrSpace);
    if !preserveNumbers {
      body := Keep(body, NotDigit);
    }
    body := Collapse(body);
  }

  /** Step 8: a text longer than a non-zero limit is cut at its last space
      before the limit and marked with an ellipsis. */
  method Shorten(text: string, maxLength: Option<int>) returns (out: string)
    ensures out == if Truncates(text, maxLength) then Truncate(text, maxLength.value) else text
  {
    out := text;
    if maxLength.Some? && maxLength.value != 0 && |text| > maxLength.value {
      out := BeforeLastSpace(Take(text, maxLength.value)) + "...";
    }
  }

  method CleanText(text: string, parsed: Option<string>, preserveNumbers: bool, preserveUrls: bool,
                   maxLength: Option<int>) returns (r: CleanOutcome)
    ensures r == CleanTextSpec(text, parsed, preserveNumbers, preserveUrls, maxLength)
    ensures r.Cleaned? ==> r.text == [] || (!IsSpace(r.text[0]) && !IsSpace(r.text[|r.text| - 1]))
  {
    if text == [] {
      return Cleaned([]);
    }
    if parsed.None? {
      return TextProcessingError;
    }
    var t := parsed.value;
    var urls: seq<string> := [];
    if preserveUrls {
      urls := FindUrls(t, NotSpace);
    }
    var body := CleanBody(t, preserveNumbers);
    var out := body;
    if preserveUrls && urls != [] {
      out := AppendEach(body, urls);
    }
    out := Shorten(out, maxLength);
    r := Cleaned(Strip(out));
  }

  /** Empty input gives the empty string, whatever the parser would do. */
  lemma EmptyInputGivesEmpty(parsed: Option<string>, preserveNumbers: bool, preserveUrls: bool, maxLength: Option<int>)
    ensures CleanTextSpec([], parsed, preserveNumbers, preserveUrls, maxLength) == Cleaned([])
  {
  }

  /** A match of `https?://\S+` is one word. */
  lemma UrlIsWord(u: string)
    requires IsUrl(u, NotSpace)
    ensures IsWord(u)
  {
    var k := SchemeLen(u);
    forall i | 0 <= i < k ensures !IsSpace(u[i]) {
      if k == 8 {
        assert u[i] == "https://"[i];
      } else {
        assert u[i] == "http://"[i];
      }
    }
  }

  /** Appending words one space apart adds exactly those words. */
  lemma {:induction false} SplitAppendUrls(body: string, urls: seq<string>)
    requires forall k :: 0 <= k < |urls| ==> IsWord(urls[k])
    ensures Split(AppendUrls(body, urls)) == Split(body) + urls
  {
    if urls != [] {
      var init, last := urls[..|urls| - 1], urls[|urls| - 1];
      SplitAppendUrls(body, init);
      var a := AppendUrls(body, init);
      assert AppendUrls(body, urls) == a + [' '] + last;
      SplitAround(a, ' ', last);
      SplitWord(last);
      assert urls == init + [last];
    }
  }

  /** The body is collapsed: single inner spaces, no space at either end. */
  lemma BodyCollapsed(text: string, preserveNumbers: bool)
    ensures Collapsed(Body(text, preserveNumbers))
  {
    var blanked := Blank(text, WordOrSpace);
    CollapseShape(if preserveNumbers then blanked else Keep(blanked, NotDigit));
  }

  /** Without truncation the words of the result are the words of the body
      followed by each URL in match order; with no URLs either, the result
      is the body itself. */
  lemma CleanTextWords(text: string, parsed: string, preserveNumbers: bool, preserveUrls: bool, maxLength: Option<int>)
    requires text != []
    requires !Truncates(AppendUrls(Body(parsed, preserveNumbers), KeptUrls(parsed, preserveUrls)), maxLength)
    ensures CleanTextSpec(text, Some(parsed), preserveNumbers, preserveUrls, maxLength).Cleaned?
    ensures Split(CleanTextSpec(text, Some(parsed), preserveNumbers, preserveUrls, maxLength).text)
            == Split(Body(parsed, preserveNumbers)) + KeptUrls(parsed, preserveUrls)
    ensures KeptUrls(parsed, preserveUrls) == [] ==>
            CleanTextSpec(text, Some(parsed), preserveNumbers, preserveUrls, maxLength).text == Body(parsed, preserveNumbers)
  {
    var body := Body(parsed, preserveNumbers);
    var urls := KeptUrls(parsed, preserveUrls);
    var joined := AppendUrls(body, urls);
    assert CleanTextSpec(text, Some(parsed), preserveNumbers, preserveUrls, maxLength) == Cleaned(Strip(joined));
    forall k | 0 <= k < |urls| ensures IsWord(urls[k]) {
      UrlIsWord(urls[k]);
    }
    SplitAppendUrls(body, urls);
    SplitStrip(joined);
    if urls == [] {
      assert joined == body;
      BodyCollapsed(parsed, preserveNumbers);
      if body != [] {
        assert [] + body == body;
        StripPadded([], body);
      }
    }
  }

  /** With a positive `max_length` the result is at most three characters
      longer: the cut text plus the ellipsis. */
  lemma CleanTextLengthBound(text: string, parsed: string, preserveNumbers: bool, preserveUrls: bool, m: int)
    requires text != [] && m > 0
    ensures |CleanTextSpec(text, Some(parsed), preserveNumbers, preserveUrls, Some(m)).text| <= m + 3
  {
  }

  /** Without URLs the result holds only word characters (no digits unless
      numbers are kept), single spaces, and the dots of the ellipsis. */
  lemma CleanTextChars(text: string, parsed: string, preserveNumbers: bool, maxLength: Option<int>)
    requires text != []
    ensures forall c :: c in CleanTextSpec(text, Some(parsed), preserveNumbers, false, maxLength).text ==>
      c == ' ' || c == '.' || (IsWordChar(c) && (preserveNumbers || !IsDigit(c)))
  {
    var body := Body(parsed, preserveNumbers);
    BodyChars(parsed, preserveNumbers);
    assert AppendUrls(body, []) == body;
    if Truncates(body, maxLength) {
      TruncateChars(body, maxLength.value);
    }
  }

  /** The body holds single spaces and word characters, digits only when
      numbers are kept. */
  lemma BodyChars(parsed: string, preserveNumbers: bool)
    ensures forall c :: c in Body(parsed, preserveNumbers) ==>
      c == ' ' || (IsWordChar(c) && (preserveNumbers || !IsDigit(c)))
  {
    var blanked := Blank(parsed, WordOrSpace);
    var kept := if preserveNumbers then blanked else Keep(blanked, NotDigit);
    assert forall c :: c in kept ==> WordOrSpace(c) && (preserveNumbers || !IsDigit(c));
    CollapseChars(kept);
  }

  /** Truncation adds nothing but the dots of the ellipsis. */
  lemma TruncateChars(body: string, m: int)
    ensures forall c :: c in Truncate(body, m) ==> c in body || c == '.'
  {
    var cut := BeforeLastSpace(Take(body, m));
    assert forall c :: c in cut ==> c in body;
    assert forall c :: c in cut + "..." ==> c in cut || c == '.';
  }

  // ---------------------------------------------------------------------
  // extract_keywords
  // ---------------------------------------------------------------------

  const StopWords: set<string> :=
    {"the", "a", "an", "and", "or", "but", "in", "on", "at", "to", "for", "is", "are"}

  /** A word `extract_keywords` considers: not a common word, longer than
      two characters. */
  predicate IsCandidate(w: string) { w !in StopWords && |w| > 2 }

  /** `[w for w in ws if w not in common_words and len(w) > 2]`: every
      qualifying word, as often as it occurs and in its order in `ws`, and
      nothing else. */
  function Candidates(ws: seq<string>): (r: seq<string>)
    ensures forall k :: 0 <= k < |r| ==> r[k] in ws && IsCandidate(r[k])
    ensures forall w :: multiset(r)[w] == if IsCandidate(w) then multiset(ws)[w] else 0
    ensures Subsequence(r, ws)
  {
    if ws == [] then []
    else
      var rest := Candidates(ws[1..]);
      FilterStep(ws, rest, IsCandidate);
      (if IsCandidate(ws[0]) then [ws[0]] else []) + rest
  }

  /** The distinct words in order of first occurrence: the key order of a
      dictionary filled from `ws`. */
  function Dedup(ws: seq<string>): (d: seq<string>)
    ensures Distinct(d)
    ensures forall w :: w in d <==> w in ws
  {
    if ws == [] then []
    else
      var init, last := ws[..|ws| - 1], ws[|ws| - 1];
      assert ws == init + [last];
      if last in init then Dedup(init) else Dedup(init) + [last]
  }

  /** The keys of the dictionary come in the order in which the words
      first occur in `ws`. */
  lemma {:induction false} DedupFirstOccurrenceOrder(ws: seq<string>)
    ensures forall i, j :: 0 <= i < j < |Dedup(ws)| ==> FirstIndex(ws, Dedup(ws)[i]) < FirstIndex(ws, Dedup(ws)[j])
  {
    if ws != [] {
      var init, last := ws[..|ws| - 1], ws[|ws| - 1];
      assert ws == init + [last];
      var d, prev := Dedup(ws), Dedup(init);
      DedupFirstOccurrenceOrder(init);
      FirstIndexSnoc(init, last);
      forall i, j | 0 <= i < j < |d| ensures FirstIndex(ws, d[i]) < FirstIndex(ws, d[j]) {
        assert d[i] == prev[i] && prev[i] in init;
        if j < |prev| {
          assert d[j] == prev[j] && prev[j] in init;
        } else {
          assert d[j] == last && last !in init;
        }
      }
    }
  }

  type Entry = (string, int)

  /** `word_freq.items()`: each distinct word with its number of occurrences. */
  function Entries(ws: seq<string>): (es: seq<Entry>)
    ensures |es| == |Dedup(ws)|
    ensures forall k :: 0 <= k < |es| ==> es[k] == (Dedup(ws)[k], multiset(ws)[Dedup(ws)[k]])
  {
    var d := Dedup(ws);
    seq(|d|, k requires 0 <= k < |d| => (d[k], multiset(ws)[d[k]]))
  }

  /** The key of the sort, compared for `reverse=True`. */
  predicate ByCount(a: Entry, b: Entry) { a.1 >= b.1 }

  function Firsts(es: seq<Entry>): (ws: seq<string>)
    ensures |ws| == |es| && forall k :: 0 <= k < |es| ==> ws[k] == es[k].0
  {
    seq(|es|, k requires 0 <= k < |es| => es[k].0)
  }

  /** The candidate words of `text`: lowercased, split, filtered. */
  function KeywordCandidates(text: string): seq<string> {
    Candidates(Split(Lower(text)))
  }

  function SortedEntries(text: string): seq<Entry> {
    Sort(Entries(KeywordCandidates(text)), ByCount)
  }

  /** `extract_keywords(text, max_keywords)` */
  function KeywordsSpec(text: string, maxKeywords: int): seq<string> {
    Firsts(Take(SortedEntries(text), maxKeywords))
  }

  /** `keys` and `freq` are the dictionary `word_freq` filled from `done`
      (its keys in insertion order and its map): the distinct words in
      order of first occurrence, each with its number of occurrences. */
  ghost predicate Counted(done: seq<string>, keys: seq<string>, freq: map<string, int>) {
    && keys == Dedup(done)
    && (forall v :: v in freq <==> v in done)
    && (forall v :: v in freq ==> freq[v] == multiset(done)[v])
  }

  /** One step of the counting loop: adding a word to the words seen so
      far adds it to the keys on its first occurrence and counts it. */
  lemma CountStep(words: seq<string>, i: int, keys: seq<string>, freq: map<string, int>)
    requires 0 <= i < |words| && Counted(words[..i], keys, freq)
    ensures var w := words[i];
      Counted(words[..i + 1], if w in freq then keys else keys + [w],
              freq[w := (if w in freq then freq[w] else 0) + 1])
  {
    var done, w, next := words[..i], words[i], words[..i + 1];
    assert next == done + [w];
    assert next[..|next| - 1] == done && next[|next| - 1] == w;
    assert multiset(next) == multiset(done) + multiset{w};
  }

  /** The counting loop: `word_freq[word] = word_freq.get(word, 0) + 1`. */
  method CountWords(words: seq<string>) returns (keys: seq<string>, freq: map<string, int>)
    ensures keys == Dedup(words)
    ensures forall w :: w in freq <==> w in words
    ensures forall w :: w in freq ==> freq[w] == multiset(words)[w]
  {
    keys := [];
    freq := map[];
    var i := 0;
    while i < |words|
      invariant 0 <= i <= |words|
      invariant Counted(words[..i], keys, freq)
    {
      var w := words[i];
      CountStep(words, i, keys, freq);
      var count := if w in freq then freq[w] else 0;
      if w !in freq {
        keys := keys + [w];
      }
      freq := freq[w := count + 1];
      i := i + 1;
    }
    assert words[..i] == words;
  }

  method ExtractKeywords(text: string, maxKeywords: int) returns (keywords: seq<string>)
    ensures keywords == KeywordsSpec(text, maxKeywords)
  {
    var words := Candidates(Split(Lower(text)));
    var keys, freq := CountWords(words);
    var items := seq(|keys|, k requires 0 <= k < |keys| && keys[k] in freq => (keys[k], freq[keys[k]]));
    assert items == Entries(words);
    keywords := Firsts(Take(Sort(items, ByCount), maxKeywords));
  }

  lemma ByCountPreorder()
    ensures TotalPreorder(ByCount)
  {
  }

  /** Every sorted entry is a candidate word with its count. */
  lemma SortedEntryFacts(text: string, k: int)
    requires 0 <= k < |SortedEntries(text)|
    ensures SortedEntries(text)[k].0 in KeywordCandidates(text)
    ensures SortedEntries(text)[k].1 == multiset(KeywordCandidates(text))[SortedEntries(text)[k].0]
  {
    var es := Entries(KeywordCandidates(text));
    var e := SortedEntries(text)[k];
    SortPermutation(es, ByCount);
    assert e in multiset(SortedEntries(text));
    assert e in multiset(es);
    var j :| 0 <= j < |es| && es[j] == e;
  }

  /** The keywords are candidate words: no stop word, longer than two
      characters, taken from the lowercased text. */
  lemma KeywordsAreCandidates(text: string, maxKeywords: int)
    ensures forall w :: w in KeywordsSpec(text, maxKeywords) ==>
      w !in StopWords && |w| > 2 && w in Split(Lower(text))
  {
    var r := KeywordsSpec(text, maxKeywords);
    forall w | w in r ensures w !in StopWords && |w| > 2 && w in Split(Lower(text)) {
      var k :| 0 <= k < |r| && r[k] == w;
      SortedEntryFacts(text, k);
      var cands := KeywordCandidates(text);
      var j :| 0 <= j < |cands| && cands[j] == w;
    }
  }

  /** No keyword is listed twice. */
  lemma KeywordsDistinct(text: string, maxKeywords: int)
    ensures Distinct(KeywordsSpec(text, maxKeywords))
  {
    var es := Entries(KeywordCandidates(text));
    var d := Dedup(KeywordCandidates(text));
    assert Distinct(es) by {
      forall i, j | 0 <= i < j < |es| ensures es[i] != es[j] {
        assert es[i].0 == d[i] && es[j].0 == d[j];
      }
    }
    SortDistinct(es, ByCount);
    var r := KeywordsSpec(text, maxKeywords);
    var s := SortedEntries(text);
    forall i, j | 0 <= i < j < |r| ensures r[i] != r[j] {
      SortedEntryFacts(text, i);
      SortedEntryFacts(text, j);
      assert s[i] != s[j];
    }
  }

  /** At most `max_keywords` keywords. */
  lemma KeywordsBound(text: string, maxKeywords: int)
    requires maxKeywords >= 0
    ensures |KeywordsSpec(text, maxKeywords)| <= maxKeywords
  {
  }

  /** Keywords come in non-increasing order of frequency, which is their
      number of occurrences among the candidates and so among all the words
      of the lower-cased text. */
  lemma KeywordsByFrequency(text: string, maxKeywords: int)
    ensures forall i, j :: 0 <= i < j < |KeywordsSpec(text, maxKeywords)| ==>
      multiset(KeywordCandidates(text))[KeywordsSpec(text, maxKeywords)[i]] >=
      multiset(KeywordCandidates(text))[KeywordsSpec(text, maxKeywords)[j]]
    ensures forall i, j :: 0 <= i < j < |KeywordsSpec(text, maxKeywords)| ==>
      multiset(Split(Lower(text)))[KeywordsSpec(text, maxKeywords)[i]] >=
      multiset(Split(Lower(text)))[KeywordsSpec(text, maxKeywords)[j]]
  {
    KeywordsAreCandidates(text, maxKeywords);
    ByCountPreorder();
    SortSorted(Entries(KeywordCandidates(text)), ByCount);
    var r := KeywordsSpec(text, maxKeywords);
    forall i, j | 0 <= i < j < |r|
      ensures multiset(KeywordCandidates(text))[r[i]] >= multiset(KeywordCandidates(text))[r[j]]
    {
      SortedEntryFacts(text, i);
      SortedEntryFacts(text, j);
    }
  }

  /** Words of equal frequency keep the order in which they first occur:
      among the entries tied with `e`, the sort keeps the order of the
      dictionary, and that is the order in which the words first occur in
      the candidates. */
  lemma KeywordTiesInFirstOccurrenceOrder(text: string, e: Entry)
    ensures Ties(SortedEntries(text), e, ByCount) == Ties(Entries(KeywordCandidates(text)), e, ByCount)
    ensures var c, ts := KeywordCandidates(text), Ties(SortedEntries(text), e, ByCount);
      forall i, j :: 0 <= i < j < |ts| ==> FirstIndex(c, ts[i].0) < FirstIndex(c, ts[j].0)
  {
    var c := KeywordCandidates(text);
    var es := Entries(c);
    ByCountPreorder();
    SortStable(es, e, ByCount);
    EntriesInFirstOccurrenceOrder(c);
    TiesSubsequence(es, e, ByCount);
    SubsequenceIncreasing(Ties(es, e, ByCount), es, (en: Entry) => FirstIndex(c, en.0));
  }

  /** `word_freq` lists its words in the order they first occur. */
  lemma EntriesInFirstOccurrenceOrder(ws: seq<string>)
    ensures forall i, j :: 0 <= i < j < |Entries(ws)| ==> FirstIndex(ws, Entries(ws)[i].0) < FirstIndex(ws, Entries(ws)[j].0)
  {
    var es, d := Entries(ws), Dedup(ws);
    DedupFirstOccurrenceOrder(ws);
    forall i, j | 0 <= i < j < |es| ensures FirstIndex(ws, es[i].0) < FirstIndex(ws, es[j].0) {
      assert es[i].0 == d[i] && es[j].0 == d[j];
    }
  }

  // ---------------------------------------------------------------------
  // summarize_text
  // ---------------------------------------------------------------------

  predicate IsTerminator(c: char) { c == '.' || c == '!' || c == '?' }

  predicate NotTerminator(c: char) { !IsTerminator(c) }

  predicate NoTerminator(s: string) {
    forall c :: c in s ==> !IsTerminator(c)
  }

  /** `re.split(r'[.!?]+', s)`: the pieces between runs of terminators. */
  function Pieces(s: string): (ps: seq<string>)
    ensures forall k :: 0 <= k < |ps| ==> NoTerminator(ps[k])
    decreases |s|
  {
    var n := RunLen(s, NotTerminator);
    if n == |s| then
      assert forall c :: c in s ==> !IsTerminator(c) by {
        forall c | c in s ensures !IsTerminator(c) {
          var i :| 0 <= i < |s| && s[i] == c;
        }
      }
      [s]
    else
      var m := RunLen(s[n..], IsTerminator);
      assert NoTerminator(s[..n]) by {
        forall c | c in s[..n] ensures !IsTerminator(c) {
          var i :| 0 <= i < n && s[i] == c;
        }
      }
      [s[..n]] + Pieces(s[n + m..])
  }

  /** `[p.strip() for p in pieces if p.strip()]` */
  function Sentences(pieces: seq<string>): seq<string> {
    if pieces == [] then []
    else (if Strip(pieces[0]) != [] then [Strip(pieces[0])] else []) + Sentences(pieces[1..])
  }

  /** `summarize_text(text, max_sentences)` */
  function Summarize(text: string, maxSentences: int): string {
    var ss := Sentences(Pieces(text));
    if ss == [] then text else Join(". ", Take(ss, maxSentences)) + "."
  }

  /** A sentence as `summarize_text` keeps it: non-empty, stripped, and
      without terminators. */
  predicate IsSentence(s: string) {
    s != [] && !IsSpace(s[0]) && !IsSpace(s[|s| - 1]) && NoTerminator(s)
  }

  lemma StripNoTerminator(p: string)
    requires NoTerminator(p)
    ensures NoTerminator(Strip(p))
  {
  }

  lemma SentenceCons(q: string, rest: seq<string>)
    requires IsSentence(q)
    requires forall k :: 0 <= k < |rest| ==> IsSentence(rest[k])
    ensures forall k :: 0 <= k < |[q] + rest| ==> IsSentence(([q] + rest)[k])
  {
    var ss := [q] + rest;
    forall k | 0 < k < |ss| ensures IsSentence(ss[k]) {
      assert ss[k] == rest[k - 1];
    }
  }

  lemma {:induction false} SentencesAreSentences(pieces: seq<string>)
    requires forall k :: 0 <= k < |pieces| ==> NoTerminator(pieces[k])
    ensures forall k :: 0 <= k < |Sentences(pieces)| ==> IsSentence(Sentences(pieces)[k])
  {
    if pieces != [] {
      var q, rest := Strip(pieces[0]), Sentences(pieces[1..]);
      SentencesAreSentences(pieces[1..]);
      if q == [] {
        assert Sentences(pieces) == [] + rest == rest;
      } else {
        assert Sentences(pieces) == [q] + rest;
        StripNoTerminator(pieces[0]);
        SentenceCons(q, rest);
      }
    }
  }

  /** A run of non-terminators, one terminator and then a non-terminator
      splits after the run. */
  lemma PiecesAt(x: string, y: string)
    requires NoTerminator(x)
    requires y == [] || !IsTerminator(y[0])
    ensures Pieces(x + "." + y) == [x] + Pieces(y)
  {
    var s := x + "." + y;
    forall i | 0 <= i < |x| ensures NotTerminator(s[i]) {
      assert s[i] == x[i] && x[i] in x;
    }
    RunLenExact(s, NotTerminator, |x|);
    var t := s[|x|..];
    assert t == "." + y;
    RunLenExact(t, IsTerminator, 1);
    assert s[..|x|] == x && s[|x| + 1..] == y;
  }

  lemma SentencesCons(p: string, rest: seq<string>)
    ensures Sentences([p] + rest) == (if Strip(p) != [] then [Strip(p)] else []) + Sentences(rest)
  {
    assert ([p] + rest)[1..] == rest;
  }

  /** The last sentence of a summary: the text before the final '.'. */
  lemma ResplitLast(x: string, a: string)
    requires NoTerminator(x) && Strip(x) == a
    ensures Sentences(Pieces(x + ".")) == (if a != [] then [a] else [])
  {
    assert x + "." == x + "." + [];
    PiecesAt(x, []);
    assert Pieces([]) == [[]];
    SentencesCons(x, [[]]);
    SentencesCons([], []);
  }

  lemma AllSpacesNoTerminator(sp: string)
    requires AllSpaces(sp)
    ensures NoTerminator(sp)
  {
    forall c | c in sp ensures !IsTerminator(c) {
      var i :| 0 <= i < |sp| && sp[i] == c;
    }
  }

  lemma JoinMore(sp: string, ss: seq<string>)
    requires |ss| >= 2
    ensures sp + Join(". ", ss) + "." == (sp + ss[0]) + "." + (" " + Join(". ", ss[1..]) + ".")
  {
    var a, j := ss[0], Join(". ", ss[1..]);
    assert Join(". ", ss) == a + ". " + j;
    assert "." + " " == ". ";
    calc {
      (sp + ((a + ". ") + j)) + ".";
      == { Assoc(a, ".", " "); }
      (sp + (((a + ".") + " ") + j)) + ".";
      == { Assoc(a + ".", " ", j); }
      (sp + ((a + ".") + (" " + j))) + ".";
      == { Assoc(sp, a + ".", " " + j); }
      ((sp + (a + ".")) + (" " + j)) + ".";
      == { Assoc(sp, a, "."); }
      (((sp + a) + ".") + (" " + j)) + ".";
      == { Assoc((sp + a) + ".", " " + j, "."); }
      ((sp + a) + ".") + ((" " + j) + ".");
    }
  }

  /** Splitting a summary into sentences again gives back the sentences it
      was made of. */
  lemma {:induction false} ResplitJoined(sp: string, ss: seq<string>)
    requires AllSpaces(sp)
    requires forall k :: 0 <= k < |ss| ==> IsSentence(ss[k])
    ensures Sentences(Pieces(sp + Join(". ", ss) + ".")) == ss
    decreases |ss|, 1
  {
    AllSpacesNoTerminator(sp);
    if ss == [] {
      assert sp + Join(". ", ss) == sp;
      StripSpaces(sp);
      ResplitLast(sp, []);
    } else if |ss| == 1 {
      StripPadded(sp, ss[0]);
      assert sp + Join(". ", ss) == sp + ss[0];
      ResplitLast(sp + ss[0], ss[0]);
    } else {
      ResplitMore(sp, ss);
    }
  }

  lemma {:induction false} ResplitMore(sp: string, ss: seq<string>)
    requires AllSpaces(sp) && NoTerminator(sp) && |ss| >= 2
    requires forall k :: 0 <= k < |ss| ==> IsSentence(ss[k])
    ensures Sentences(Pieces(sp + Join(". ", ss) + ".")) == ss
    decreases |ss|, 0
  {
    var a, rest := ss[0], ss[1..];
    var x := sp + a;
    var y := " " + Join(". ", rest) + ".";
    assert NoTerminator(x);
    assert y[0] == ' ';
    calc {
      Sentences(Pieces(sp + Join(". ", ss) + "."));
    == { JoinMore(sp, ss); }
      Sentences(Pieces(x + "." + y));
    == { PiecesAt(x, y); }
      Sentences([x] + Pieces(y));
    == { SentencesCons(x, Pieces(y)); StripPadded(sp, a); }
      [a] + Sentences(Pieces(y));
    == { assert AllSpaces(" "); ResplitJoined(" ", rest); }
      [a] + rest;
    == 
      ss;
    }
  }

  /** A summary built from sentences splits back into them. */
  lemma ResplitSummary(kept: seq<string>)
    requires forall k :: 0 <= k < |kept| ==> IsSentence(kept[k])
    ensures Sentences(Pieces(Join(". ", kept) + ".")) == kept
  {
    var j := Join(". ", kept);
    calc {
      Sentences(Pieces(j + "."));
    == { EmptyPrefix(j); }
      Sentences(Pieces([] + j + "."));
    == { assert AllSpaces([]); ResplitJoined([], kept); }
      kept;
    }
  }

  /** With no sentence the text comes back unchanged; otherwise the summary
      ends with '.', and its sentences are the first `max_sentences`
      sentences of the text, so there are at most that many. */
  lemma SummarizeShape(text: string, maxSentences: int)
    ensures Sentences(Pieces(text)) == [] ==> Summarize(text, maxSentences) == text
    ensures Sentences(Pieces(text)) != [] ==>
      var summary := Summarize(text, maxSentences);
      && summary != [] && summary[|summary| - 1] == '.'
      && Sentences(Pieces(summary)) == Take(Sentences(Pieces(text)), maxSentences)
    ensures Sentences(Pieces(text)) != [] && maxSentences >= 0 ==>
      |Sentences(Pieces(Summarize(text, maxSentences)))| <= maxSentences
  {
    var ss := Sentences(Pieces(text));
    if ss != [] {
      SentencesAreSentences(Pieces(text));
      var kept := Take(ss, maxSentences);
      assert forall k :: 0 <= k < |kept| ==> IsSentence(kept[k]) by {
        forall k | 0 <= k < |kept| ensures IsSentence(kept[k]) {
          assert kept[k] == ss[k];
        }
      }
      var summary := Summarize(text, maxSentences);
      assert summary == Join(". ", kept) + ".";
      ResplitSummary(kept);
    }
  }
}
