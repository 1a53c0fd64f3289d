/**
 * `re.findall` for the URL patterns of the cleaners, `https?://` followed by
 * one or more characters of a class: matches are found left to right, each
 * is as long as the class allows (the `+` is greedy) and the scan resumes
 * after it.
 */
module UrlScan {
  import opened PyText
  import opened Seqs

  /** Length of the `https://` or `http://` that starts `s`; 0 when neither
      does (the optional `s` is tried first, as the greedy `s?` does). */
  function SchemeLen(s: string): (k: nat)
    ensures k == 0 || k == 7 || k == 8
    ensures k == 8 ==> |s| >= 8 && s[..8] == "https://"
    ensures k == 7 ==> |s| >= 7 && s[..7] == "http://"
    ensures k == 0 ==> !(|s| >= 7 && s[..7] == "http://") && !(|s| >= 8 && s[..8] == "https://")
  {
    if |s| >= 8 && s[..8] == "https://" then 8
    else if |s| >= 7 && s[..7] == "http://" then 7
    else 0
  }

  /** Length of the leading run of characters satisfying `p`. */
  function RunLen(s: string, p: char -> bool): (n: nat)
    ensures n <= |s|
    ensures forall i :: 0 <= i < n ==> p(s[i])
    ensures n < |s| ==> !p(s[n])
  {
    if s == [] || !p(s[0]) then 0 else 1 + RunLen(s[1..], p)
  }

  /** The leading run is exactly `n` long when the first `n` characters
      satisfy `p` and the next one, if any, does not. */
  lemma {:induction false} RunLenExact(s: string, p: char -> bool, n: nat)
    requires n <= |s| && (forall i :: 0 <= i < n ==> p(s[i])) && (n == |s| || !p(s[n]))
    ensures RunLen(s, p) == n
  {
    if n > 0 {
      RunLenExact(s[1..], p, n - 1);
    }
  }

  /** A whole match of the pattern: a scheme and then at least one
      character of the class. */
  predicate IsUrl(u: string, urlChar: char -> bool) {
    var k := SchemeLen(u);
    0 < k < |u| && forall i :: k <= i < |u| ==> urlChar(u[i])
  }

  /** Length of the match that starts at the head of `s`, or 0 if none does. */
  function MatchLen(s: string, urlChar: char -> bool): (n: nat)
    ensures n <= |s|
    ensures n > 0 ==> IsUrl(s[..n], urlChar)
    ensures n > 0 ==> n == |s| || !urlChar(s[n])
  {
    var k := SchemeLen(s);
    if 0 < k < |s| && urlChar(s[k]) then
      var m := RunLen(s[k..], urlChar);
      assert SchemeLen(s[..k + m]) == k by {
        assert s[..k + m][..k] == s[..k];
        if k == 7 {
          assert !(|s[..k + m]| >= 8 && s[..k + m][..8] == "https://");
        }
      }
      k + m
    else 0
  }

  /** `re.findall(pattern, s)`: the matches, left to right, without overlap. */
  function FindUrls(s: string, urlChar: char -> bool): (urls: seq<string>)
    ensures forall k :: 0 <= k < |urls| ==> IsUrl(urls[k], urlChar)
    decreases |s|
  {
    if s == [] then []
    else
      var n := MatchLen(s, urlChar);
      if n > 0 then [s[..n]] + FindUrls(s[n..], urlChar) else FindUrls(s[1..], urlChar)
  }

  /** `re.findall` finds nothing exactly when the pattern matches at no
      position of `s`. */
  lemma {:induction false} FindUrlsEmpty(s: string, urlChar: char -> bool)
    ensures FindUrls(s, urlChar) == [] <==> forall i :: 0 <= i < |s| ==> MatchLen(s[i..], urlChar) == 0
    decreases |s|
  {
    if s != [] {
      assert s[0..] == s;
      if MatchLen(s, urlChar) == 0 {
        FindUrlsEmpty(s[1..], urlChar);
        forall i | 1 <= i < |s| ensures s[i..] == s[1..][i - 1..] {}
      }
    }
  }

  /** Positions where the pattern does not match are skipped: the scan
      from `k` finds what the scan from `i` finds. */
  lemma {:induction false} FindUrlsSkip(s: string, urlChar: char -> bool, k: nat, i: nat)
    requires k <= i <= |s|
    requires forall j :: k <= j < i ==> MatchLen(s[j..], urlChar) == 0
    ensures FindUrls(s[k..], urlChar) == FindUrls(s[i..], urlChar)
    decreases i - k
  {
    if k < i {
      assert s[k..][1..] == s[k + 1..];
      FindUrlsSkip(s, urlChar, k + 1, i);
    }
  }

  /** The first URL `re.findall` reports is the match at the leftmost
      position `i` where the pattern matches; the scan resumes after it. */
  lemma FindUrlsLeftmost(s: string, urlChar: char -> bool, i: nat)
    requires i < |s| && MatchLen(s[i..], urlChar) > 0
    requires forall j :: 0 <= j < i ==> MatchLen(s[j..], urlChar) == 0
    ensures var u := s[i..]; var n := MatchLen(u, urlChar);
      FindUrls(s, urlChar) == [u[..n]] + FindUrls(u[n..], urlChar)
  {
    FindUrlsSkip(s, urlChar, 0, i);
    assert s[0..] == s;
  }

  predicate OccursAt(part: string, s: string, i: nat) {
    i + |part| <= |s| && s[i..i + |part|] == part
  }

  /** The `parts` occur in `s` one after another, without overlapping. */
  ghost predicate OccurInOrder(parts: seq<string>, s: string)
    decreases |parts|
  {
    parts == [] ||
    exists i: nat :: OccursAt(parts[0], s, i) && OccurInOrder(parts[1..], s[i + |parts[0]|..])
  }

  lemma {:induction false} OccurInOrderLater(parts: seq<string>, c: char, s: string)
    requires OccurInOrder(parts, s)
    ensures OccurInOrder(parts, [c] + s)
  {
    if parts != [] {
      var i: nat :| OccursAt(parts[0], s, i) && OccurInOrder(parts[1..], s[i + |parts[0]|..]);
      var t := [c] + s;
      assert t[i + 1..i + 1 + |parts[0]|] == parts[0];
      assert OccursAt(parts[0], t, i + 1);
      assert t[i + 1 + |parts[0]|..] == s[i + |parts[0]|..];
    }
  }

  /** The URLs found are pieces of the text, in the order they appear there. */
  lemma {:induction false} FindUrlsInOrder(s: string, urlChar: char -> bool)
    ensures OccurInOrder(FindUrls(s, urlChar), s)
    decreases |s|
  {
    if s != [] {
      var n := MatchLen(s, urlChar);
      if n > 0 {
        FindUrlsInOrder(s[n..], urlChar);
        var urls := FindUrls(s, urlChar);
        assert urls[0] == s[..n] && urls[1..] == FindUrls(s[n..], urlChar);
        assert s[0..0 + |urls[0]|] == urls[0];
        assert OccursAt(urls[0], s, 0);
      } else {
        FindUrlsInOrder(s[1..], urlChar);
        OccurInOrderLater(FindUrls(s[1..], urlChar), s[0], s[1..]);
        assert [s[0]] + s[1..] == s;
      }
    }
  }
}
