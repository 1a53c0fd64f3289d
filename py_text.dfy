/**
 * The Python `str` operations the cleaners are built from, over an
 * ASCII-oriented alphabet: the character classes `\s`, `[a-zA-Z]`, `\d` and
 * `\w`, `str.lower`, `str.split()`, `sep.join`, `str.strip`, `str.replace`,
 * prefix slicing `s[:n]`, `str(n)` and string ordering.
 */
module PyText {
  import opened Seqs

  // ---------------------------------------------------------------------
  // Character classes
  // ---------------------------------------------------------------------

  /** `\s` and the separators of `str.split()`: space, the controls \t \n \v
      \f \r and the information separators U+001C..U+001F. */
  predicate IsSpace(c: char) {
    c == ' ' || ('\t' <= c <= '\r') || ('\U{1C}' <= c <= '\U{1F}')
  }

  predicate IsUpper(c: char) { 'A' <= c <= 'Z' }

  predicate IsLower(c: char) { 'a' <= c <= 'z' }

  /** `[a-zA-Z]` */
  predicate IsAsciiLetter(c: char) { IsUpper(c) || IsLower(c) }

  /** `\d` and `[0-9]` */
  predicate IsDigit(c: char) { '0' <= c <= '9' }

  /** `\w`: letters, digits and the underscore. */
  predicate IsWordChar(c: char) { IsAsciiLetter(c) || IsDigit(c) || c == '_' }

  predicate NotSpace(c: char) { !IsSpace(c) }

  // ---------------------------------------------------------------------
  // str.lower
  // ---------------------------------------------------------------------

  function LowerChar(c: char): (d: char)
    ensures !IsUpper(d)
    ensures IsUpper(c) ==> IsLower(d)
    ensures !IsUpper(c) ==> d == c
    ensures IsSpace(d) <==> IsSpace(c)
  {
    if IsUpper(c) then (c as int + 32) as char else c
  }

  /** `s.lower()` */
  function Lower(s: string): (r: string)
    ensures |r| == |s|
    ensures forall i :: 0 <= i < |s| ==> r[i] == LowerChar(s[i])
  {
    seq(|s|, i requires 0 <= i < |s| => LowerChar(s[i]))
  }

  lemma LowerHasNoUpper(s: string)
    ensures forall c :: c in Lower(s) ==> !IsUpper(c)
  {
  }

  // ---------------------------------------------------------------------
  // Deleting and blanking characters (`re.sub` with '' and with ' ')
  // ---------------------------------------------------------------------

  /** `re.sub('[^…]', '', s)`: the characters of `s` that satisfy `p`, in order. */
  function Keep(s: string, p: char -> bool): (r: string)
    ensures |r| <= |s|
    ensures forall i :: 0 <= i < |r| ==> p(r[i])
    ensures forall c :: c in r ==> c in s
    ensures (forall i :: 0 <= i < |s| ==> p(s[i])) ==> r == s
  {
    if s == [] then []
    else (if p(s[0]) then [s[0]] else []) + Keep(s[1..], p)
  }

  /** `Keep` keeps every character of the class, as often as it occurs and
      in its order in `s`, and nothing else. */
  lemma {:induction false} KeepFilter(s: string, p: char -> bool)
    ensures forall c :: multiset(Keep(s, p))[c] == if p(c) then multiset(s)[c] else 0
    ensures Subsequence(Keep(s, p), s)
  {
    if s != [] {
      KeepFilter(s[1..], p);
      FilterStep(s, Keep(s[1..], p), p);
    }
  }

  lemma KeepAppend(a: string, b: string, p: char -> bool)
    ensures Keep(a + b, p) == Keep(a, p) + Keep(b, p)
  {
    if a != [] {
      assert (a + b)[0] == a[0];
      assert (a + b)[1..] == a[1..] + b;
      KeepAppend(a[1..], b, p);
    } else {
      assert a + b == b;
    }
  }

  /** Nothing is kept when no character satisfies `p`. */
  lemma {:induction false} KeepNone(s: string, p: char -> bool)
    requires forall i :: 0 <= i < |s| ==> !p(s[i])
    ensures Keep(s, p) == []
  {
    if s != [] {
      KeepNone(s[1..], p);
    }
  }

  /** Keeping what `q` accepts out of what `p` kept is keeping what both accept. */
  lemma {:induction false} KeepKeep(s: string, p: char -> bool, q: char -> bool, both: char -> bool)
    requires forall c :: both(c) <==> p(c) && q(c)
    ensures Keep(Keep(s, p), q) == Keep(s, both)
  {
    if s != [] {
      KeepKeep(s[1..], p, q, both);
      KeepAppend(if p(s[0]) then [s[0]] else [], Keep(s[1..], p), q);
    }
  }

  lemma KeepCons(c: char, t: string, p: char -> bool)
    ensures Keep([c] + t, p) == (if p(c) then [c] else []) + Keep(t, p)
  {
    var s := [c] + t;
    assert s[0] == c && s[1..] == t;
  }

  lemma LowerAppend(a: string, b: string)
    ensures Lower(a + b) == Lower(a) + Lower(b)
  {
    assert forall i :: 0 <= i < |a + b| ==> Lower(a + b)[i] == (Lower(a) + Lower(b))[i];
  }

  /** Lowercasing commutes with dropping whitespace. */
  lemma {:induction false} KeepNotSpaceLower(s: string)
    ensures Keep(Lower(s), NotSpace) == Lower(Keep(s, NotSpace))
  {
    if s != [] {
      var c, t := s[0], s[1..];
      var d := LowerChar(c);
      var h := if NotSpace(c) then [c] else [];
      assert s == [c] + t;
      assert Lower([c]) == [d];
      assert Lower(h) == if NotSpace(d) then [d] else [];
      calc {
        Keep(Lower(s), NotSpace);
        == { LowerAppend([c], t); }
        Keep([d] + Lower(t), NotSpace);
        == { KeepCons(d, Lower(t), NotSpace); KeepNotSpaceLower(t); }
        Lower(h) + Lower(Keep(t, NotSpace));
        == { LowerAppend(h, Keep(t, NotSpace)); }
        Lower(h + Keep(t, NotSpace));
        == { KeepCons(c, t, NotSpace); }
        Lower(Keep(s, NotSpace));
      }
    }
  }

  /** `re.sub('[^…]', ' ', s)`: every character `keep` rejects becomes one space. */
  function Blank(s: string, keep: char -> bool): (r: string)
    ensures |r| == |s|
    ensures forall i :: 0 <= i < |s| ==> r[i] == (if keep(s[i]) then s[i] else ' ')
  {
    if s == [] then []
    else [if keep(s[0]) then s[0] else ' '] + Blank(s[1..], keep)
  }
  /** Blanking keeps a text whose characters are all kept. */
  lemma BlankAllowed(s: string, keep: char -> bool)
    requires forall i :: 0 <= i < |s| ==> keep(s[i])
    ensures Blank(s, keep) == s
  {
  }

  // ---------------------------------------------------------------------
  // str.split() and ' '.join
  // ---------------------------------------------------------------------

  /** A word of `str.split()`: non-empty, without whitespace. */
  predicate IsWord(w: string) {
    w != [] && forall i :: 0 <= i < |w| ==> !IsSpace(w[i])
  }

  /** Length of the leading run of non-whitespace characters. */
  function WordLen(s: string): (n: nat)
    ensures n <= |s|
    ensures forall i :: 0 <= i < n ==> !IsSpace(s[i])
    ensures n < |s| ==> IsSpace(s[n])
  {
    if s == [] || IsSpace(s[0]) then 0 else 1 + WordLen(s[1..])
  }

  /** `s.split()`: the maximal runs of non-whitespace characters, in order. */
  function Split(s: string): seq<string>
    decreases |s|
  {
    if s == [] then []
    else if IsSpace(s[0]) then Split(s[1..])
    else
      var n := WordLen(s);
      [s[..n]] + Split(s[n..])
  }

  /** Every item of `s.split()` is a word. */
  lemma {:induction false} SplitWords(s: string)
    ensures forall k :: 0 <= k < |Split(s)| ==> IsWord(Split(s)[k])
    decreases |s|
  {
    if s != [] {
      SplitUnfold(s);
      if IsSpace(s[0]) {
        SplitWords(s[1..]);
      } else {
        var n := WordLen(s);
        var ws := Split(s);
        SplitWords(s[n..]);
        forall k | 0 <= k < |ws| ensures IsWord(ws[k]) {
          if k > 0 {
            assert ws[k] == Split(s[n..])[k - 1];
          }
        }
      }
    }
  }

  /** `sep.join(parts)` */
  function Join(sep: string, parts: seq<string>): string {
    if parts == [] then ""
    else if |parts| == 1 then parts[0]
    else parts[0] + sep + Join(sep, parts[1..])
  }

  /** Every character of a join comes from the separator or from a part. */
  lemma {:induction false} JoinChars(sep: string, parts: seq<string>, c: char)
    requires c in Join(sep, parts)
    ensures c in sep || exists k :: 0 <= k < |parts| && c in parts[k]
  {
    if |parts| > 1 && c !in sep && c !in parts[0] {
      JoinChars(sep, parts[1..], c);
      var k :| 0 <= k < |parts[1..]| && c in parts[1..][k];
      assert c in parts[k + 1];
    }
  }

  /** `' '.join(s.split())`: whitespace runs become one space, ends trimmed. */
  function Collapse(s: string): string {
    Join(" ", Split(s))
  }

  /** The shape `' '.join` gives to words: every whitespace character is a
      single ' ' with a non-space character on each side, so there is no
      leading or trailing whitespace and no run of two spaces. */
  predicate Collapsed(s: string) {
    forall i :: 0 <= i < |s| && IsSpace(s[i]) ==>
      s[i] == ' ' && 0 < i < |s| - 1 && !IsSpace(s[i + 1])
  }

  predicate AllSpaces(s: string) {
    forall i :: 0 <= i < |s| ==> IsSpace(s[i])
  }

  lemma {:induction false} WordLenAround(a: string, c: char, b: string)
    requires IsSpace(c)
    ensures WordLen(a + [c] + b) == WordLen(a)
  {
    if a == [] {
      assert (a + [c] + b)[0] == c;
    } else if !IsSpace(a[0]) {
      assert (a + [c] + b)[1..] == a[1..] + [c] + b;
      WordLenAround(a[1..], c, b);
    }
  }

  lemma SplitUnfold(s: string)
    requires s != []
    ensures IsSpace(s[0]) ==> Split(s) == Split(s[1..])
    ensures !IsSpace(s[0]) ==> Split(s) == [s[..WordLen(s)]] + Split(s[WordLen(s)..])
  {
  }

  lemma SplitAroundSpace(a: string, c: char, b: string)
    requires IsSpace(c) && a != [] && IsSpace(a[0])
    requires Split(a[1..] + [c] + b) == Split(a[1..]) + Split(b)
    ensures Split(a + [c] + b) == Split(a) + Split(b)
  {
    var s := a + [c] + b;
    SplitUnfold(s);
    SplitUnfold(a);
    assert s[1..] == a[1..] + [c] + b;
  }

  lemma SplitAroundWord(a: string, c: char, b: string)
    requires IsSpace(c) && a != [] && !IsSpace(a[0])
    requires Split(a[WordLen(a)..] + [c] + b) == Split(a[WordLen(a)..]) + Split(b)
    ensures Split(a + [c] + b) == Split(a) + Split(b)
  {
    var n := WordLen(a);
    var t := [c] + b;
    Assoc(a, [c], b);
    Assoc(a[n..], [c], b);
    var s := a + t;
    WordLenAround(a, c, b);
    SliceAppend(a, t, n);
    calc {
      Split(s);
      == { SplitUnfold(s); }
      [a[..n]] + Split(a[n..] + t);
      [a[..n]] + (Split(a[n..]) + Split(b));
      == { Assoc([a[..n]], Split(a[n..]), Split(b)); }
      ([a[..n]] + Split(a[n..])) + Split(b);
      == { SplitUnfold(a); }
      Split(a) + Split(b);
    }
  }

  /** A whitespace character separates the words on its two sides. */
  lemma {:induction false} SplitAround(a: string, c: char, b: string)
    requires IsSpace(c)
    ensures Split(a + [c] + b) == Split(a) + Split(b)
    decreases |a|
  {
    if a == [] {
      var s := a + [c] + b;
      SplitUnfold(s);
      assert s[1..] == b;
    } else if IsSpace(a[0]) {
      SplitAround(a[1..], c, b);
      SplitAroundSpace(a, c, b);
    } else {
      SplitAround(a[WordLen(a)..], c, b);
      SplitAroundWord(a, c, b);
    }
  }

  lemma {:induction false} SplitAllSpaces(s: string)
    requires AllSpaces(s)
    ensures Split(s) == []
  {
    if s != [] {
      SplitAllSpaces(s[1..]);
    }
  }

  lemma SplitWord(w: string)
    requires IsWord(w)
    ensures Split(w) == [w]
  {
    var n := WordLen(w);
    assert n == |w|;
    assert w[..n] == w && w[n..] == [];
    assert Split(w) == [w[..n]] + Split(w[n..]);
  }

  /** Every character of a word of `s` is a character of `s`. */
  lemma {:induction false} SplitChars(s: string, c: char)
    requires c !in s
    ensures forall k :: 0 <= k < |Split(s)| ==> c !in Split(s)[k]
    decreases |s|
  {
    if s != [] {
      if IsSpace(s[0]) {
        assert c !in s[1..];
        SplitChars(s[1..], c);
      } else {
        var n := WordLen(s);
        assert s == s[..n] + s[n..];
        assert c !in s[..n] && c !in s[n..];
        SplitChars(s[n..], c);
        assert Split(s) == [s[..n]] + Split(s[n..]);
      }
    }
  }

  /** Trailing whitespace does not change the words. */
  lemma SplitTrailingSpaces(s: string, t: string)
    requires AllSpaces(t)
    ensures Split(s + t) == Split(s)
  {
    if t != [] {
      var u := t[1..];
      assert t == [t[0]] + u;
      assert s + t == s + [t[0]] + u;
      SplitAround(s, t[0], u);
      assert AllSpaces(u) by {
        forall i | 0 <= i < |u| ensures IsSpace(u[i]) {
          assert u[i] == t[i + 1];
        }
      }
      SplitAllSpaces(u);
      assert Split(s + t) == Split(s) + [];
    } else {
      assert s + t == s;
    }
  }

  /** Leading whitespace does not change the words. */
  lemma SplitLeadingSpaces(t: string, s: string)
    requires AllSpaces(t)
    ensures Split(t + s) == Split(s)
  {
    if t != [] {
      var u := t[..|t| - 1];
      assert t == u + [t[|t| - 1]];
      assert t + s == u + [t[|t| - 1]] + s;
      SplitAround(u, t[|t| - 1], s);
      assert AllSpaces(u) by {
        forall i | 0 <= i < |u| ensures IsSpace(u[i]) {
          assert u[i] == t[i];
        }
      }
      SplitAllSpaces(u);
      assert Split(t + s) == [] + Split(s);
    } else {
      assert t + s == s;
    }
  }

  /** Splitting what `' '.join` built gives the words back. */
  lemma {:induction false} SplitJoin(ws: seq<string>)
    requires forall k :: 0 <= k < |ws| ==> IsWord(ws[k])
    ensures Split(Join(" ", ws)) == ws
  {
    if |ws| == 1 {
      SplitWord(ws[0]);
    } else if |ws| > 1 {
      SplitJoin(ws[1..]);
      SplitWord(ws[0]);
      assert Join(" ", ws) == ws[0] + [' '] + Join(" ", ws[1..]);
      SplitAround(ws[0], ' ', Join(" ", ws[1..]));
    }
  }

  lemma CollapsedCons(w: string, t: string)
    requires IsWord(w) && Collapsed(t) && t != []
    ensures Collapsed(w + " " + t)
  {
    var s := w + " " + t;
    forall i | 0 <= i < |s| && IsSpace(s[i])
      ensures s[i] == ' ' && 0 < i < |s| - 1 && !IsSpace(s[i + 1])
    {
      if i > |w| {
        assert s[i] == t[i - |w| - 1];
        if i + 1 < |s| {
          assert s[i + 1] == t[i - |w|];
        }
      } else if i == |w| {
        assert s[i + 1] == t[0];
      }
    }
  }

  /** `' '.join` of words has the collapsed shape. */
  lemma {:induction false} JoinCollapsed(ws: seq<string>)
    requires forall k :: 0 <= k < |ws| ==> IsWord(ws[k])
    ensures Collapsed(Join(" ", ws))
    ensures Join(" ", ws) == [] <==> ws == []
  {
    if |ws| > 1 {
      JoinCollapsed(ws[1..]);
      CollapsedCons(ws[0], Join(" ", ws[1..]));
    }
  }

  lemma JoinCons(sep: string, w: string, ws: seq<string>)
    requires ws != []
    ensures Join(sep, [w] + ws) == w + sep + Join(sep, ws)
  {
    var parts := [w] + ws;
    assert parts[0] == w && parts[1..] == ws;
  }

  /** The words of a collapsed string, joined again, give the string back. */
  lemma {:induction false} CollapseFixpoint(s: string)
    requires Collapsed(s)
    ensures Collapse(s) == s
    decreases |s|
  {
    if s != [] {
      var n := WordLen(s);
      if n == |s| {
        SplitWord(s);
      } else {
        var w, rest := s[..n], s[n + 1..];
        assert s == w + [s[n]] + rest;
        forall i | 0 <= i < |rest| && IsSpace(rest[i])
          ensures rest[i] == ' ' && 0 < i < |rest| - 1 && !IsSpace(rest[i + 1])
        {
          assert rest[i] == s[n + 1 + i];
        }
        assert Split(rest) != [] by {
          assert !IsSpace(rest[0]);
          assert Split(rest) == [rest[..WordLen(rest)]] + Split(rest[WordLen(rest)..]);
        }
        calc {
          Collapse(s);
          == { SplitAround(w, s[n], rest); SplitWord(w); }
          Join(" ", [w] + Split(rest));
          == { JoinCons(" ", w, Split(rest)); }
          w + " " + Join(" ", Split(rest));
          == { CollapseFixpoint(rest); }
          w + " " + rest;
        }
      }
    }
  }

  lemma CollapseShape(s: string)
    ensures Collapsed(Collapse(s))
    ensures Split(Collapse(s)) == Split(s)
  {
    SplitWords(s);
    JoinCollapsed(Split(s));
    SplitJoin(Split(s));
  }

  /** The concatenation of `parts`. */
  function Flatten(parts: seq<string>): string {
    if parts == [] then "" else parts[0] + Flatten(parts[1..])
  }

  lemma FlattenCons(w: string, ws: seq<string>)
    ensures Flatten([w] + ws) == w + Flatten(ws)
  {
    var parts := [w] + ws;
    assert parts[0] == w && parts[1..] == ws;
  }

  /** The non-space characters of `s` are its words, concatenated. */
  lemma {:induction false} KeepNotSpaceIsWords(s: string)
    ensures Keep(s, NotSpace) == Flatten(Split(s))
    decreases |s|
  {
    if s != [] {
      if IsSpace(s[0]) {
        assert s == [s[0]] + s[1..];
        calc {
          Keep(s, NotSpace);
          == { KeepCons(s[0], s[1..], NotSpace); }
          [] + Keep(s[1..], NotSpace);
          == { KeepNotSpaceIsWords(s[1..]); }
          [] + Flatten(Split(s[1..]));
          == { EmptyPrefix(Flatten(Split(s[1..]))); }
          Flatten(Split(s));
        }
      } else {
        var n := WordLen(s);
        var w, rest := s[..n], s[n..];
        assert s == w + rest;
        calc {
          Keep(s, NotSpace);
          == { KeepAppend(w, rest, NotSpace); }
          Keep(w, NotSpace) + Keep(rest, NotSpace);
          == { KeepNotSpaceIsWords(rest); }
          w + Flatten(Split(rest));
          == { FlattenCons(w, Split(rest)); }
          Flatten([w] + Split(rest));
        }
      }
    }
  }

  lemma EmptyPrefix(s: string)
    ensures [] + s == s
  {
  }

  lemma KeepSpace()
    ensures Keep(" ", NotSpace) == []
  {
    KeepCons(' ', [], NotSpace);
    assert [' '] + [] == " ";
  }

  lemma {:induction false} KeepNotSpaceJoin(ws: seq<string>)
    requires forall k :: 0 <= k < |ws| ==> IsWord(ws[k])
    ensures Keep(Join(" ", ws), NotSpace) == Flatten(ws)
  {
    if |ws| == 1 {
      assert ws == [ws[0]] + [];
      FlattenCons(ws[0], []);
      assert ws[0] + [] == ws[0];
    } else if |ws| > 1 {
      var w, j := ws[0], Join(" ", ws[1..]);
      assert ws == [w] + ws[1..];
      calc {
        Keep(Join(" ", ws), NotSpace);
        Keep((w + " ") + j, NotSpace);
        == { KeepAppend(w + " ", j, NotSpace); }
        Keep(w + " ", NotSpace) + Keep(j, NotSpace);
        == { KeepAppend(w, " ", NotSpace); KeepSpace(); assert w + [] == w; }
        w + Keep(j, NotSpace);
        == { KeepNotSpaceJoin(ws[1..]); }
        w + Flatten(ws[1..]);
        == { FlattenCons(w, ws[1..]); }
        Flatten(ws);
      }
    }
  }

  /** Collapsing keeps every non-space character, in order. */
  lemma KeepNotSpaceCollapse(s: string)
    ensures Keep(Collapse(s), NotSpace) == Keep(s, NotSpace)
  {
    KeepNotSpaceIsWords(s);
    SplitWords(s);
    KeepNotSpaceJoin(Split(s));
  }

  /** Words taken from `s`, joined by single spaces, use only single spaces
      and the non-space characters of `s`. */
  lemma JoinWordsChars(s: string, ws: seq<string>)
    requires forall k :: 0 <= k < |ws| ==> ws[k] in Split(s)
    ensures forall c :: c in Join(" ", ws) ==> c == ' ' || (c in s && !IsSpace(c))
  {
    forall c | c in Join(" ", ws) && c != ' ' ensures c in s && !IsSpace(c) {
      JoinChars(" ", ws, c);
      var k :| 0 <= k < |ws| && c in ws[k];
      var j :| 0 <= j < |Split(s)| && Split(s)[j] == ws[k];
      if c !in s {
        SplitChars(s, c);
      }
      var i :| 0 <= i < |ws[k]| && ws[k][i] == c;
      SplitWords(s);
      assert IsWord(Split(s)[j]);
    }
  }

  /** Collapsing keeps the non-space characters and adds only single spaces. */
  lemma CollapseChars(s: string)
    ensures forall c :: c in Collapse(s) ==> c == ' ' || (c in s && !IsSpace(c))
  {
    JoinWordsChars(s, Split(s));
  }

  /** `s.lstrip()`: `s` without its leading whitespace. */
  function LStrip(s: string): (r: string)
    ensures |r| <= |s| && r == s[|s| - |r|..] && AllSpaces(s[..|s| - |r|])
    ensures r != [] ==> !IsSpace(r[0])
  {
    if s != [] && IsSpace(s[0]) then
      var t := LStrip(s[1..]);
      SpacesCons(s[0], s[1..][..|s| - 1 - |t|]);
      assert s[..|s| - |t|] == [s[0]] + s[1..][..|s| - 1 - |t|];
      t
    else s
  }

  /** `s.rstrip()`: `s` without its trailing whitespace. */
  function RStrip(s: string): (r: string)
    ensures |r| <= |s| && r == s[..|r|] && AllSpaces(s[|r|..])
    ensures r != [] ==> !IsSpace(r[|r| - 1])
  {
    if s != [] && IsSpace(s[|s| - 1]) then
      var t := RStrip(s[..|s| - 1]);
      SpacesSnoc(s[..|s| - 1][|t|..], s[|s| - 1]);
      assert s[|t|..] == s[..|s| - 1][|t|..] + [s[|s| - 1]];
      t
    else s
  }

  lemma SpacesCons(c: char, s: string)
    requires IsSpace(c) && AllSpaces(s)
    ensures AllSpaces([c] + s)
  {
  }

  lemma SpacesSnoc(s: string, c: char)
    requires AllSpaces(s) && IsSpace(c)
    ensures AllSpaces(s + [c])
  {
  }

  /** `s.strip()`: `s` without its leading and trailing whitespace. */
  function Strip(s: string): (r: string)
    ensures r != [] ==> !IsSpace(r[0]) && !IsSpace(r[|r| - 1])
    ensures |r| <= |s| && forall c :: c in r ==> c in s
  {
    var l := LStrip(s);
    var r := RStrip(l);
    assert forall c :: c in r ==> c in l;
    r
  }

  /** Whitespace is stripped to nothing. */
  lemma {:induction false} StripSpaces(sp: string)
    requires AllSpaces(sp)
    ensures Strip(sp) == []
  {
  }

  /** `LStrip` removes exactly the leading whitespace in front of a text
      that starts with a non-space. */
  lemma {:induction false} LStripPadded(sp: string, a: string)
    requires AllSpaces(sp) && a != [] && !IsSpace(a[0])
    ensures LStrip(sp + a) == a
  {
    if sp == [] {
      assert sp + a == a;
    } else {
      assert (sp + a)[1..] == sp[1..] + a;
      LStripPadded(sp[1..], a);
    }
  }

  /** Leading whitespace in front of a stripped, non-empty text is all
      that `strip` removes. */
  lemma StripPadded(sp: string, a: string)
    requires AllSpaces(sp) && a != [] && !IsSpace(a[0]) && !IsSpace(a[|a| - 1])
    ensures Strip(sp + a) == a
  {
    LStripPadded(sp, a);
  }

  lemma SplitLStrip(s: string)
    ensures Split(LStrip(s)) == Split(s)
  {
    var k := |s| - |LStrip(s)|;
    assert s == s[..k] + s[k..];
    SplitLeadingSpaces(s[..k], s[k..]);
  }

  lemma SplitRStrip(s: string)
    ensures Split(RStrip(s)) == Split(s)
  {
    var k := |RStrip(s)|;
    assert s == s[..k] + s[k..];
    SplitTrailingSpaces(s[..k], s[k..]);
  }

  /** Stripping does not change the words. */
  lemma SplitStrip(s: string)
    ensures Split(Strip(s)) == Split(s)
  {
    SplitLStrip(s);
    SplitRStrip(LStrip(s));
  }

  // ---------------------------------------------------------------------
  // str.replace
  // ---------------------------------------------------------------------

  /** `s.replace(.., repl)`: `repl` before every character and at the end. */
  function InsertAround(s: string, repl: string): string {
    if s == [] then repl else repl + [s[0]] + InsertAround(s[1..], repl)
  }

  /** `s.replace(target, by)`: every non-overlapping occurrence of `target`,
      scanning from the left, is replaced. */
  function ReplaceAll(s: string, target: string, repl: string): string
    decreases |s|
  {
    if target == [] then InsertAround(s, repl)
    else if |target| <= |s| && s[..|target|] == target then repl + ReplaceAll(s[|target|..], target, repl)
    else if s == [] then []
    else [s[0]] + ReplaceAll(s[1..], target, repl)
  }

  /** Replacing a whole non-empty string gives the replacement. */
  lemma ReplaceWhole(s: string, repl: string)
    requires s != []
    ensures ReplaceAll(s, s, repl) == repl
  {
    assert s[..|s|] == s && s[|s|..] == [];
    assert ReplaceAll(s, s, repl) == repl + ReplaceAll([], s, repl);
  }

  /** A non-empty target holding a character the text lacks is never found:
      the replacement leaves the text as it is. */
  lemma {:induction false} ReplaceAbsent(s: string, target: string, repl: string, c: char)
    requires c in target && c !in s
    ensures ReplaceAll(s, target, repl) == s
    decreases |s|
  {
    if s != [] {
      assert c !in s[1..];
      ReplaceAbsent(s[1..], target, repl, c);
    }
  }

  // ---------------------------------------------------------------------
  // Slicing and str(n)
  // ---------------------------------------------------------------------

  /** `s[:n]`, with Python's meaning for a negative `n` (all but the last -n). */
  function Take<T>(s: seq<T>, n: int): (r: seq<T>)
    ensures |r| <= |s| && r == s[..|r|]
    ensures 0 <= n ==> |r| == if n < |s| then n else |s|
    ensures n < 0 ==> |r| == if -n < |s| then |s| + n else 0
  {
    if n >= 0 then (if n <= |s| then s[..n] else s)
    else if |s| + n >= 0 then s[..|s| + n]
    else []
  }

  /** A positive slice bound takes the head and one fewer of the rest. */
  lemma TakeCons<T>(x: T, s: seq<T>, n: int)
    requires n >= 1
    ensures Take([x] + s, n) == [x] + Take(s, n - 1)
  {
    if n - 1 <= |s| {
      assert ([x] + s)[..n] == [x] + s[..n - 1];
    }
  }

  function DigitChar(d: nat): (c: char)
    requires d < 10
    ensures IsDigit(c)
  {
    ('0' as int + d) as char
  }

  /** `str(n)` for a natural number: its decimal digits. */
  function NatToString(n: nat): (r: string)
    ensures r != [] && forall i :: 0 <= i < |r| ==> IsDigit(r[i])
  {
    if n < 10 then [DigitChar(n)] else NatToString(n / 10) + [DigitChar(n % 10)]
  }

  /** `int(s)` for a string of decimal digits. */
  function DigitsValue(s: string): nat
    requires forall i :: 0 <= i < |s| ==> IsDigit(s[i])
  {
    if s == [] then 0
    else
      assert IsDigit(s[|s| - 1]);
      DigitsValue(s[..|s| - 1]) * 10 + (s[|s| - 1] as int - '0' as int)
  }

  /** `int(str(n)) == n`: decimal rendering loses nothing. */
  lemma {:induction false} NatToStringRoundTrip(n: nat)
    ensures DigitsValue(NatToString(n)) == n
  {
    if n >= 10 {
      NatToStringRoundTrip(n / 10);
      var s := NatToString(n);
      assert s[..|s| - 1] == NatToString(n / 10);
    }
  }

  // ---------------------------------------------------------------------
  // String ordering
  // ---------------------------------------------------------------------

  /** `a <= b` on Python strings: lexicographic by code point. */
  predicate StrLe(a: string, b: string)
    decreases |a|
  {
    a == [] || (b != [] && (a[0] < b[0] || (a[0] == b[0] && StrLe(a[1..], b[1..]))))
  }

  lemma {:induction false} StrLeTotal(a: string, b: string)
    ensures StrLe(a, b) || StrLe(b, a)
    decreases |a|
  {
    if a != [] && b != [] && a[0] == b[0] {
      StrLeTotal(a[1..], b[1..]);
    }
  }

  lemma {:induction false} StrLeTransitive(a: string, b: string, c: string)
    requires StrLe(a, b) && StrLe(b, c)
    ensures StrLe(a, c)
    decreases |a|
  {
    if a != [] && a[0] == b[0] && b[0] == c[0] {
      StrLeTransitive(a[1..], b[1..], c[1..]);
    }
  }

  lemma {:induction false} StrLeAntisymmetric(a: string, b: string)
    requires StrLe(a, b) && StrLe(b, a)
    ensures a == b
    decreases |a|
  {
    if a != [] {
      StrLeAntisymmetric(a[1..], b[1..]);
      assert a == [a[0]] + a[1..] && b == [b[0]] + b[1..];
    }
  }
}
