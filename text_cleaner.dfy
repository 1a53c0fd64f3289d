/**
 * The simple cleaner: after the HTML parser has run, every character that
 * is not an ASCII letter or whitespace is deleted, whitespace is collapsed
 * and the text is lowercased.
 */
module TextCleaner {
  import opened Wrappers
  import opened PyText

  /** `[a-zA-Z\s]` */
  predicate LetterOrSpace(c: char) { IsAsciiLetter(c) || IsSpace(c) }

  /** The steps after parsing: delete, collapse, lowercase. */
  function PostParse(text: string): string {
    Lower(Collapse(Keep(text, LetterOrSpace)))
  }

  /** `clean_text(html_content)`, given what the parser made of it; a
      parser failure gives the empty string. */
  function Clean(parsed: Option<string>): (r: string)
    ensures parsed.None? ==> r == []
    ensures forall c :: c in r ==> IsLower(c) || c == ' '
    ensures Collapsed(r)
  {
    match parsed
    case None => ""
    case Some(text) => PostParseShape(text); PostParse(text)
  }

  /** The output holds only lowercase ASCII letters and single spaces, with
      no space at either end and no run of two spaces. */
  lemma PostParseShape(text: string)
    ensures forall c :: c in PostParse(text) ==> IsLower(c) || c == ' '
    ensures Collapsed(PostParse(text))
  {
    var kept := Keep(text, LetterOrSpace);
    var collapsed := Collapse(kept);
    CollapseChars(kept);
    CollapseShape(kept);
    var r := PostParse(text);
    forall c | c in r ensures IsLower(c) || c == ' ' {
      var i :| 0 <= i < |r| && r[i] == c;
      assert collapsed[i] in collapsed;
    }
  }

  lemma IsAsciiLetterIsBoth()
    ensures forall c :: IsAsciiLetter(c) <==> LetterOrSpace(c) && NotSpace(c)
  {
  }

  /** The letters of the output are the letters of the input, lowercased,
      in input order: whatever else the input holds is deleted, so letters
      on both sides of it join up. */
  lemma PostParseLetters(text: string)
    ensures Keep(PostParse(text), NotSpace) == Lower(Keep(text, IsAsciiLetter))
  {
    var kept := Keep(text, LetterOrSpace);
    KeepNotSpaceLower(Collapse(kept));
    KeepNotSpaceCollapse(kept);
    IsAsciiLetterIsBoth();
    KeepKeep(text, LetterOrSpace, NotSpace, IsAsciiLetter);
  }

  /** Cleaning its own output changes nothing. */
  lemma PostParseIdempotent(text: string)
    ensures PostParse(PostParse(text)) == PostParse(text)
  {
    var r := PostParse(text);
    PostParseShape(text);
    calc {
      PostParse(r);
      == { KeepAll(r); }
      Lower(Collapse(r));
      == { CollapseFixpoint(r); }
      Lower(r);
      == { LowerFixed(r); }
      r;
    }
  }

  /** Lowercase letters and spaces all survive the deletion step. */
  lemma KeepAll(r: string)
    requires forall c :: c in r ==> IsLower(c) || c == ' '
    ensures Keep(r, LetterOrSpace) == r
  {
    forall i | 0 <= i < |r| ensures LetterOrSpace(r[i]) {
      assert r[i] in r;
    }
  }

  /** Lowercasing text without capitals changes nothing. */
  lemma LowerFixed(r: string)
    requires forall c :: c in r ==> IsLower(c) || c == ' '
    ensures Lower(r) == r
  {
    forall i | 0 <= i < |r| ensures Lower(r)[i] == r[i] {
      assert r[i] in r;
    }
  }

  /** Digits and punctuation vanish without leaving a space: text with
      such characters in the middle cleans to the same as the text without
      them, so the letters on either side join up. */
  lemma DeletionJoinsLetters(a: string, junk: string, b: string)
    requires forall i :: 0 <= i < |junk| ==> !LetterOrSpace(junk[i])
    ensures PostParse(a + junk + b) == PostParse(a + b)
  {
    KeepAppend(a + junk, b, LetterOrSpace);
    KeepAppend(a, junk, LetterOrSpace);
    KeepNone(junk, LetterOrSpace);
    KeepAppend(a, b, LetterOrSpace);
    assert Keep(a, LetterOrSpace) + [] == Keep(a, LetterOrSpace);
  }
}
