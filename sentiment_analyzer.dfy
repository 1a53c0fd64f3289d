/**
 * The sentiment analyser's result record: the labels read off the polarity
 * and subjectivity scores, the dictionary form, and the record
 * `analyze_sentiment` builds. The scores themselves come from TextBlob,
 * which is a parameter here.
 */
module SentimentAnalyzer {
  import opened Wrappers
  import opened PyDict

  /** What the scorer gives for a text. */
  datatype Scores = Scores(polarity: real, subjectivity: real)

  /** The timestamp used when the caller gives none. */
  const DefaultTimestamp: string := "2025-02-08 22:13:31"

  const DefaultUser: string := "kaxm23"

  /** `round(x, 3)` on the exact value: to the nearest thousandth, a tie
      going to the even neighbour. */
  function Round3(x: real): (r: real)
    ensures -1.0 / 2000.0 <= r - x <= 1.0 / 2000.0
    ensures (r * 1000.0).Floor as real == r * 1000.0
  {
    var scaled := x * 1000.0;
    var f := scaled.Floor;
    var n := if scaled - f as real > 0.5 || (scaled - f as real == 0.5 && f % 2 != 0) then f + 1 else f;
    assert -0.5 <= n as real - scaled <= 0.5;
    Thousandths(x, n);
    n as real / 1000.0
  }

  /** The arithmetic behind `Round3`: `n` thousandths lie within half a
      thousandth of `x` when `n` lies within a half of `1000 * x`. */
  lemma Thousandths(x: real, n: int)
    requires -0.5 <= n as real - x * 1000.0 <= 0.5
    ensures (n as real / 1000.0 * 1000.0).Floor as real == n as real / 1000.0 * 1000.0
    ensures -1.0 / 2000.0 <= n as real / 1000.0 - x <= 1.0 / 2000.0
  {
    var r := n as real / 1000.0;
    assert r * 1000.0 == n as real;
    assert r - x == (n as real - x * 1000.0) / 1000.0;
  }

  /** A value that already has at most three decimals is left as it is. */
  lemma Round3Exact(x: real)
    requires (x * 1000.0).Floor as real == x * 1000.0
    ensures Round3(x) == x
  {
  }

  /** Rounding twice is rounding once. */
  lemma Round3Idempotent(x: real)
    ensures Round3(Round3(x)) == Round3(x)
  {
    Round3Exact(Round3(x));
  }

  datatype SentimentResult = SentimentResult(
    polarity: real,
    subjectivity: real,
    textLength: int,
    timestampUtc: string,
    user: string)
  {
    /** `get_sentiment_label()`: exactly one of the three labels, Positive
        strictly above 0.3, Negative strictly below -0.3, Neutral on the
        closed interval between. */
    function SentimentLabel(): (name: string)
      ensures name == "Positive" || name == "Negative" || name == "Neutral"
      ensures name == "Positive" <==> polarity > 0.3
      ensures name == "Negative" <==> polarity < -0.3
      ensures name == "Neutral" <==> -0.3 <= polarity <= 0.3
    {
      if polarity > 0.3 then "Positive"
      else if polarity < -0.3 then "Negative"
      else "Neutral"
    }

    /** `get_subjectivity_label()`: Very Subjective above 0.7, Somewhat
        Subjective on (0.3, 0.7], Objective at or below 0.3. */
    function SubjectivityLabel(): (name: string)
      ensures name == "Very Subjective" || name == "Somewhat Subjective" || name == "Objective"
      ensures name == "Very Subjective" <==> subjectivity > 0.7
      ensures name == "Somewhat Subjective" <==> 0.3 < subjectivity <= 0.7
      ensures name == "Objective" <==> subjectivity <= 0.3
    {
      if subjectivity > 0.7 then "Very Subjective"
      else if subjectivity > 0.3 then "Somewhat Subjective"
      else "Objective"
    }

    /** `to_dict()`: the scores rounded to three decimals, both labels, and
        the other fields unchanged. */
    function ToDict(): (d: map<string, DictValue>)
      ensures d.Keys == DictKeys
      ensures d["sentiment_label"] == Str(SentimentLabel())
      ensures d["subjectivity_label"] == Str(SubjectivityLabel())
      ensures d["text_length"] == Int(textLength)
      ensures d["timestamp_utc"] == Str(timestampUtc) && d["user"] == Str(user)
      ensures d["polarity"].Real? && -1.0 / 2000.0 <= d["polarity"].r - polarity <= 1.0 / 2000.0
      ensures d["subjectivity"].Real? && -1.0 / 2000.0 <= d["subjectivity"].r - subjectivity <= 1.0 / 2000.0
    {
      map[
        "polarity" := Real(Round3(polarity)),
        "subjectivity" := Real(Round3(subjectivity)),
        "sentiment_label" := Str(SentimentLabel()),
        "subjectivity_label" := Str(SubjectivityLabel()),
        "text_length" := Int(textLength),
        "timestamp_utc" := Str(timestampUtc),
        "user" := Str(user)]
    }
  }

  const DictKeys: set<string> :=
    {"polarity", "subjectivity", "sentiment_label", "subjectivity_label", "text_length", "timestamp_utc", "user"}

  /** `analyze_sentiment(text, user, timestamp)`, with `score` standing for
      TextBlob's sentiment of the text. */
  function AnalyzeSentiment(text: string, user: string := DefaultUser, timestamp: Option<string> := None,
                            score: string -> Scores): (r: SentimentResult)
    ensures r.textLength == |text| && r.user == user
    ensures timestamp.None? ==> r.timestampUtc == DefaultTimestamp
    ensures timestamp.Some? ==> r.timestampUtc == timestamp.value
    ensures r.polarity == score(text).polarity && r.subjectivity == score(text).subjectivity
  {
    var stamp := if timestamp.None? then DefaultTimestamp else timestamp.value;
    var s := score(text);
    SentimentResult(s.polarity, s.subjectivity, |text|, stamp, user)
  }

  /** The labels of an analysis depend on the scores alone: two texts that
      score the same get the same labels, whatever their length, user or
      time. */
  lemma LabelsDependOnScoresOnly(t1: string, t2: string, u1: string, u2: string,
                                 s1: Option<string>, s2: Option<string>, score: string -> Scores)
    requires score(t1) == score(t2)
    ensures AnalyzeSentiment(t1, u1, s1, score).SentimentLabel() == AnalyzeSentiment(t2, u2, s2, score).SentimentLabel()
    ensures AnalyzeSentiment(t1, u1, s1, score).SubjectivityLabel() == AnalyzeSentiment(t2, u2, s2, score).SubjectivityLabel()
  {
  }

  /** The labels in the dictionary are taken from the unrounded score, so
      the dictionary can show a polarity of 0.3 next to the label
      Positive, which the shown value alone would call Neutral. */
  lemma RoundedPolarityBesideLabel()
    ensures
      var d := SentimentResult(0.3004, 0.0, 0, DefaultTimestamp, DefaultUser).ToDict();
      d["polarity"] == Real(0.3) && d["sentiment_label"] == Str("Positive")
      && SentimentResult(0.3, 0.0, 0, DefaultTimestamp, DefaultUser).SentimentLabel() == "Neutral"
  {
    assert (300.4).Floor == 300;
  }
}
