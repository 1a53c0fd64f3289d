/**
 * The classifier's `analyze_sentiment`: empty text is Neutral and Objective
 * without scoring; otherwise the TextBlob scores (a parameter here, which
 * may fail) are labelled by the same thresholds the sentiment analyser
 * uses, and a scoring failure becomes `SentimentAnalysisError`.
 */
module Classification {
  import opened Wrappers
  import opened PyDict
  import SentimentAnalyzer

  /** The timestamp and user used when the caller gives none. */
  const DefaultTimestamp: string := "2025-02-08 22:38:46"
  const DefaultUser: string := "kaxm23"

  datatype ClassificationResult = ClassificationResult(
    polarity: real,
    subjectivity: real,
    sentimentLabel: string,
    subjectivityLabel: string,
    timestamp: string,
    user: string)
  {
    /** `to_dict()`: the six fields under their Python names. */
    function ToDict(): (d: map<string, DictValue>)
      ensures d.Keys == DictKeys
      ensures d["polarity"] == Real(polarity) && d["subjectivity"] == Real(subjectivity)
      ensures d["sentiment_label"] == Str(sentimentLabel) && d["subjectivity_label"] == Str(subjectivityLabel)
      ensures d["timestamp"] == Str(timestamp) && d["user"] == Str(user)
    {
      map[
        "polarity" := Real(polarity),
        "subjectivity" := Real(subjectivity),
        "sentiment_label" := Str(sentimentLabel),
        "subjectivity_label" := Str(subjectivityLabel),
        "timestamp" := Str(timestamp),
        "user" := Str(user)]
    }
  }

  const DictKeys: set<string> :=
    {"polarity", "subjectivity", "sentiment_label", "subjectivity_label", "timestamp", "user"}

  /** Reads a result back from its dictionary form. */
  function FromDict(d: map<string, DictValue>): Option<ClassificationResult> {
    if DictKeys <= d.Keys
       && d["polarity"].Real? && d["subjectivity"].Real? && d["sentiment_label"].Str?
       && d["subjectivity_label"].Str? && d["timestamp"].Str? && d["user"].Str?
    then
      Some(ClassificationResult(d["polarity"].r, d["subjectivity"].r, d["sentiment_label"].s,
        d["subjectivity_label"].s, d["timestamp"].s, d["user"].s))
    else None
  }

  /** The dictionary holds exactly the result: it can be read back whole. */
  lemma DictRoundTrip(r: ClassificationResult)
    ensures FromDict(r.ToDict()) == Some(r)
  {
    var d := r.ToDict();
    assert DictKeys <= d.Keys;
  }

  /** Either a result or `SentimentAnalysisError`. */
  datatype Outcome = Analysed(result: ClassificationResult) | SentimentAnalysisError

  /** The sentiment label of a polarity score. */
  function SentimentLabelOf(polarity: real): (name: string)
    ensures name == "Positive" <==> polarity > 0.3
    ensures name == "Negative" <==> polarity < -0.3
    ensures name == "Neutral" <==> -0.3 <= polarity <= 0.3
  {
    if polarity > 0.3 then "Positive"
    else if polarity < -0.3 then "Negative"
    else "Neutral"
  }

  /** The subjectivity label of a subjectivity score. */
  function SubjectivityLabelOf(subjectivity: real): (name: string)
    ensures name == "Very Subjective" <==> subjectivity > 0.7
    ensures name == "Somewhat Subjective" <==> 0.3 < subjectivity <= 0.7
    ensures name == "Objective" <==> subjectivity <= 0.3
  {
    if subjectivity > 0.7 then "Very Subjective"
    else if subjectivity > 0.3 then "Somewhat Subjective"
    else "Objective"
  }

  /** `analyze_sentiment(text, user, timestamp)`; `score` is TextBlob's
      sentiment of the text, `None` when scoring raises. */
  function AnalyzeSentiment(text: string, user: string := DefaultUser,
                            timestamp: string := DefaultTimestamp,
                            score: string -> Option<SentimentAnalyzer.Scores>): (r: Outcome)
    ensures r.Analysed? ==> r.result.timestamp == timestamp && r.result.user == user
    ensures r.SentimentAnalysisError? <==> text != [] && score(text).None?
  {
    if text == [] then
      Analysed(ClassificationResult(0.0, 0.0, "Neutral", "Objective", timestamp, user))
    else
      match score(text)
      case None => SentimentAnalysisError
      case Some(s) =>
        Analysed(ClassificationResult(s.polarity, s.subjectivity,
          SentimentLabelOf(s.polarity), SubjectivityLabelOf(s.subjectivity), timestamp, user))
  }

  /** Empty text is Neutral and Objective with zero scores, and the scorer
      is not consulted: even a scorer that would fail gives this result. */
  lemma EmptyTextIsNeutral(user: string, timestamp: string, score: string -> Option<SentimentAnalyzer.Scores>)
    ensures AnalyzeSentiment([], user, timestamp, score)
      == Analysed(ClassificationResult(0.0, 0.0, "Neutral", "Objective", timestamp, user))
  {
  }

  /** The empty-text shortcut gives the labels that scoring zero would. */
  lemma EmptyShortcutAgrees()
    ensures SentimentLabelOf(0.0) == "Neutral" && SubjectivityLabelOf(0.0) == "Objective"
  {
  }

  /** Every result carries labels that agree with its own scores, and the
      same labels the sentiment analyser's record gives for those scores. */
  lemma LabelsMatchAnalyzer(text: string, user: string, timestamp: string,
                            score: string -> Option<SentimentAnalyzer.Scores>, length: int, utc: string)
    requires AnalyzeSentiment(text, user, timestamp, score).Analysed?
    ensures
      var r := AnalyzeSentiment(text, user, timestamp, score).result;
      var other := SentimentAnalyzer.SentimentResult(r.polarity, r.subjectivity, length, utc, user);
      && r.sentimentLabel == SentimentLabelOf(r.polarity) == other.SentimentLabel()
      && r.subjectivityLabel == SubjectivityLabelOf(r.subjectivity) == other.SubjectivityLabel()
  {
    var r := AnalyzeSentiment(text, user, timestamp, score).result;
    var other := SentimentAnalyzer.SentimentResult(r.polarity, r.subjectivity, length, utc, user);
    var a := SentimentLabelOf(r.polarity);
    var b := other.SentimentLabel();
    assert a == b by {
      if r.polarity > 0.3 {
      } else if r.polarity < -0.3 {
      } else {
      }
    }
  }

  /** A text that scores successfully is labelled by its scores exactly as
      the sentiment analyser labels the same text scored the same way. */
  lemma AgreesWithAnalyzer(text: string, user: string, timestamp: string,
                           score: string -> Option<SentimentAnalyzer.Scores>,
                           analyserScore: string -> SentimentAnalyzer.Scores)
    requires text != [] && score(text) == Some(analyserScore(text))
    ensures
      var r := AnalyzeSentiment(text, user, timestamp, score).result;
      var s := SentimentAnalyzer.AnalyzeSentiment(text, user, Some(timestamp), analyserScore);
      && r.polarity == s.polarity && r.subjectivity == s.subjectivity
      && r.sentimentLabel == s.SentimentLabel() && r.subjectivityLabel == s.SubjectivityLabel()
      && r.timestamp == s.timestampUtc && r.user == s.user
  {
    LabelsMatchAnalyzer(text, user, timestamp, score, |text|, timestamp);
  }
}
