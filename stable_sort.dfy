/**
 * Python's `sorted(s, key=…, reverse=True)` and `list.sort(key=…,
 * reverse=True)`: a stable sort into non-increasing order of the key.
 * `atLeast(a, b)` says that `a`'s key is at least `b`'s. The result of a
 * stable sort is fully determined by the order and the input, so it is
 * defined here by insertion.
 */
module StableSort {
  import opened Seqs

  /** `atLeast` compares keys: every two elements are comparable and the
      comparison is transitive. */
  ghost predicate TotalPreorder<T(!new)>(atLeast: (T, T) -> bool) {
    && (forall a, b :: atLeast(a, b) || atLeast(b, a))
    && Transitive(atLeast)
  }

  ghost predicate Transitive<T(!new)>(atLeast: (T, T) -> bool) {
    forall a, b, c :: atLeast(a, b) && atLeast(b, c) ==> atLeast(a, c)
  }

  predicate SortedDesc<T>(s: seq<T>, atLeast: (T, T) -> bool) {
    forall i, j :: 0 <= i < j < |s| ==> atLeast(s[i], s[j])
  }

  /** Equal keys. */
  predicate Tie<T>(a: T, b: T, atLeast: (T, T) -> bool) {
    atLeast(a, b) && atLeast(b, a)
  }

  /** The elements of `s` whose key equals `e`'s, in their order in `s`. */
  function Ties<T>(s: seq<T>, e: T, atLeast: (T, T) -> bool): seq<T> {
    if s == [] then [] else (if Tie(s[0], e, atLeast) then [s[0]] else []) + Ties(s[1..], e, atLeast)
  }

  ghost predicate Distinct<T>(s: seq<T>) {
    forall i, j :: 0 <= i < j < |s| ==> s[i] != s[j]
  }

  /** `x` placed after the leading elements whose key is at least its own. */
  function Insert<T>(x: T, s: seq<T>, atLeast: (T, T) -> bool): seq<T> {
    if s == [] then [x]
    else if atLeast(s[0], x) then [s[0]] + Insert(x, s[1..], atLeast)
    else [x] + s
  }

  /** The stable sort: each element in turn inserted after the elements with
      an equal or larger key that came before it. */
  function Sort<T>(s: seq<T>, atLeast: (T, T) -> bool): seq<T> {
    if s == [] then []
    else Insert(s[|s| - 1], Sort(s[..|s| - 1], atLeast), atLeast)
  }

  /** Inserting adds `x` and loses nothing. */
  lemma {:induction false} InsertPermutation<T>(x: T, s: seq<T>, atLeast: (T, T) -> bool)
    ensures multiset(Insert(x, s, atLeast)) == multiset(s) + multiset{x}
  {
    if s != [] && atLeast(s[0], x) {
      assert s == [s[0]] + s[1..];
      InsertPermutation(x, s[1..], atLeast);
    }
  }

  /** The sort is a permutation of its input. */
  lemma {:induction false} SortPermutation<T>(s: seq<T>, atLeast: (T, T) -> bool)
    ensures multiset(Sort(s, atLeast)) == multiset(s)
  {
    if s != [] {
      var init := s[..|s| - 1];
      assert s == init + [s[|s| - 1]];
      SortPermutation(init, atLeast);
      InsertPermutation(s[|s| - 1], Sort(init, atLeast), atLeast);
    }
  }

  lemma SortedCons<T>(h: T, t: seq<T>, atLeast: (T, T) -> bool)
    requires SortedDesc(t, atLeast)
    requires forall y :: y in t ==> atLeast(h, y)
    ensures SortedDesc([h] + t, atLeast)
  {
    var s := [h] + t;
    forall i, j | 0 <= i < j < |s| ensures atLeast(s[i], s[j]) {
      assert s[j] == t[j - 1];
      if i > 0 {
        assert s[i] == t[i - 1];
      }
    }
  }

  lemma {:induction false} InsertSorted<T(!new)>(x: T, s: seq<T>, atLeast: (T, T) -> bool)
    requires TotalPreorder(atLeast) && SortedDesc(s, atLeast)
    ensures SortedDesc(Insert(x, s, atLeast), atLeast)
  {
    if s != [] {
      InsertUnfold(x, s, atLeast);
      if atLeast(s[0], x) {
        var t := Insert(x, s[1..], atLeast);
        SortedTail(s, atLeast);
        InsertSorted(x, s[1..], atLeast);
        forall y | y in t ensures atLeast(s[0], y) {
          InsertMembers(x, s[1..], y, atLeast);
          if y != x {
            var k :| 0 <= k < |s[1..]| && s[1..][k] == y;
            assert s[k + 1] == y;
          }
        }
        SortedCons(s[0], t, atLeast);
      } else {
        forall y | y in s ensures atLeast(x, y) {
          var k :| 0 <= k < |s| && s[k] == y;
          assert atLeast(s[0], y);
        }
        SortedCons(x, s, atLeast);
      }
    }
  }

  /** The sort puts the keys in non-increasing order. */
  lemma {:induction false} SortSorted<T(!new)>(s: seq<T>, atLeast: (T, T) -> bool)
    requires TotalPreorder(atLeast)
    ensures SortedDesc(Sort(s, atLeast), atLeast)
  {
    if s != [] {
      SortSorted(s[..|s| - 1], atLeast);
      InsertSorted(s[|s| - 1], Sort(s[..|s| - 1], atLeast), atLeast);
    }
  }

  lemma TiesCons<T>(h: T, t: seq<T>, e: T, atLeast: (T, T) -> bool)
    ensures Ties([h] + t, e, atLeast) == (if Tie(h, e, atLeast) then [h] else []) + Ties(t, e, atLeast)
  {
    var s := [h] + t;
    assert s[0] == h && s[1..] == t;
  }

  lemma SortedTail<T>(s: seq<T>, atLeast: (T, T) -> bool)
    requires s != [] && SortedDesc(s, atLeast)
    ensures SortedDesc(s[1..], atLeast)
  {
    var t := s[1..];
    forall i, j | 0 <= i < j < |t| ensures atLeast(t[i], t[j]) {
      assert t[i] == s[i + 1] && t[j] == s[j + 1];
    }
  }

  lemma {:induction false} TiesAppend<T>(a: seq<T>, b: seq<T>, e: T, atLeast: (T, T) -> bool)
    ensures Ties(a + b, e, atLeast) == Ties(a, e, atLeast) + Ties(b, e, atLeast)
  {
    if a == [] {
      assert a + b == b;
    } else {
      var h := if Tie(a[0], e, atLeast) then [a[0]] else [];
      assert a == [a[0]] + a[1..];
      assert a + b == [a[0]] + (a[1..] + b);
      TiesCons(a[0], a[1..] + b, e, atLeast);
      TiesCons(a[0], a[1..], e, atLeast);
      TiesAppend(a[1..], b, e, atLeast);
      Assoc(h, Ties(a[1..], e, atLeast), Ties(b, e, atLeast));
    }
  }

  lemma {:induction false} TiesNone<T>(s: seq<T>, e: T, atLeast: (T, T) -> bool)
    requires forall i :: 0 <= i < |s| ==> !Tie(s[i], e, atLeast)
    ensures Ties(s, e, atLeast) == []
  {
    if s != [] {
      TiesNone(s[1..], e, atLeast);
    }
  }

  lemma InsertUnfold<T>(x: T, s: seq<T>, atLeast: (T, T) -> bool)
    requires s != []
    ensures atLeast(s[0], x) ==> Insert(x, s, atLeast) == [s[0]] + Insert(x, s[1..], atLeast)
    ensures !atLeast(s[0], x) ==> Insert(x, s, atLeast) == [x] + s
  {
  }

  /** The elements tied with `e` and the element `x` itself, when it ties. */
  function TiesWith<T>(s: seq<T>, x: T, e: T, atLeast: (T, T) -> bool): seq<T> {
    Ties(s, e, atLeast) + (if Tie(x, e, atLeast) then [x] else [])
  }

  /** When `x` goes in front of a sorted list whose head ranks below it,
      `x` ties with `e` only if nothing in the list does. */
  lemma InsertTiesFront<T(!new)>(x: T, s: seq<T>, e: T, atLeast: (T, T) -> bool)
    requires Transitive(atLeast) && SortedDesc(s, atLeast)
    requires s != [] && !atLeast(s[0], x)
    ensures Ties(Insert(x, s, atLeast), e, atLeast) == TiesWith(s, x, e, atLeast)
  {
    InsertUnfold(x, s, atLeast);
    TiesCons(x, s, e, atLeast);
    if Tie(x, e, atLeast) {
      forall i | 0 <= i < |s| ensures !Tie(s[i], e, atLeast) {
        if i > 0 {
          assert atLeast(s[0], s[i]);
        }
        assert !atLeast(s[i], x);
      }
      TiesNone(s, e, atLeast);
    }
  }

  /** When `x` goes behind the head of the list, the head's tie (if any)
      stays in front of whatever the rest of the insertion gives. */
  lemma InsertTiesBehind<T>(x: T, s: seq<T>, e: T, atLeast: (T, T) -> bool)
    requires s != [] && atLeast(s[0], x)
    requires Ties(Insert(x, s[1..], atLeast), e, atLeast) == TiesWith(s[1..], x, e, atLeast)
    ensures Ties(Insert(x, s, atLeast), e, atLeast) == TiesWith(s, x, e, atLeast)
  {
    var tail := if Tie(x, e, atLeast) then [x] else [];
    var h := if Tie(s[0], e, atLeast) then [s[0]] else [];
    var t := Insert(x, s[1..], atLeast);
    InsertUnfold(x, s, atLeast);
    calc {
      Ties(Insert(x, s, atLeast), e, atLeast);
      == { TiesCons(s[0], t, e, atLeast); }
      h + Ties(t, e, atLeast);
      h + (Ties(s[1..], e, atLeast) + tail);
      == { Assoc(h, Ties(s[1..], e, atLeast), tail); }
      (h + Ties(s[1..], e, atLeast)) + tail;
      == { assert s == [s[0]] + s[1..]; TiesCons(s[0], s[1..], e, atLeast); }
      Ties(s, e, atLeast) + tail;
    }
  }

  /** Inserting `x` into a sorted list adds `x` to the elements tied with
      `e` exactly when `x` ties with `e`, and after those already there. */
  lemma {:induction false} InsertTies<T(!new)>(x: T, s: seq<T>, e: T, atLeast: (T, T) -> bool)
    requires Transitive(atLeast) && SortedDesc(s, atLeast)
    ensures Ties(Insert(x, s, atLeast), e, atLeast) == TiesWith(s, x, e, atLeast)
  {
    if s != [] {
      if atLeast(s[0], x) {
        SortedTail(s, atLeast);
        InsertTies(x, s[1..], e, atLeast);
        InsertTiesBehind(x, s, e, atLeast);
      } else {
        InsertTiesFront(x, s, e, atLeast);
      }
    }
  }

  lemma TiesSingle<T>(x: T, e: T, atLeast: (T, T) -> bool)
    ensures Ties([x], e, atLeast) == if Tie(x, e, atLeast) then [x] else []
  {
    assert [x][1..] == [];
  }

  lemma SortLast<T>(s: seq<T>, atLeast: (T, T) -> bool)
    requires s != []
    ensures Sort(s, atLeast) == Insert(s[|s| - 1], Sort(s[..|s| - 1], atLeast), atLeast)
  {
  }

  /** Stability: the elements with equal keys keep their relative order. */
  lemma {:induction false} SortStable<T(!new)>(s: seq<T>, e: T, atLeast: (T, T) -> bool)
    requires TotalPreorder(atLeast)
    ensures Ties(Sort(s, atLeast), e, atLeast) == Ties(s, e, atLeast)
  {
    if s != [] {
      var init, last := s[..|s| - 1], s[|s| - 1];
      var sorted := Sort(init, atLeast);
      assert s == init + [last];
      calc {
        Ties(Sort(s, atLeast), e, atLeast);
        == { SortLast(s, atLeast); }
        Ties(Insert(last, sorted, atLeast), e, atLeast);
        == { SortSorted(init, atLeast); InsertTies(last, sorted, e, atLeast); }
        TiesWith(sorted, last, e, atLeast);
        == { SortStable(init, e, atLeast); TiesSingle(last, e, atLeast); }
        Ties(init, e, atLeast) + Ties([last], e, atLeast);
        == { TiesAppend(init, [last], e, atLeast); }
        Ties(init + [last], e, atLeast);
      }
    }
  }

  /** The elements tied with `e` keep their order in `s`. */
  lemma {:induction false} TiesSubsequence<T>(s: seq<T>, e: T, atLeast: (T, T) -> bool)
    ensures Subsequence(Ties(s, e, atLeast), s)
  {
    if s != [] {
      var rest := Ties(s[1..], e, atLeast);
      TiesSubsequence(s[1..], e, atLeast);
      SubsequenceStep(s, rest);
      if Tie(s[0], e, atLeast) {
        assert Ties(s, e, atLeast) == [s[0]] + rest;
      } else {
        assert Ties(s, e, atLeast) == rest;
      }
    }
  }

  /** The elements of an insertion: `x` and those of `s`. */
  lemma {:induction false} InsertMembers<T>(x: T, s: seq<T>, y: T, atLeast: (T, T) -> bool)
    ensures y in Insert(x, s, atLeast) <==> y == x || y in s
  {
    if s != [] {
      InsertUnfold(x, s, atLeast);
      assert s == [s[0]] + s[1..];
      if atLeast(s[0], x) {
        InsertMembers(x, s[1..], y, atLeast);
      }
    }
  }

  lemma DistinctCons<T>(h: T, t: seq<T>)
    requires Distinct(t) && h !in t
    ensures Distinct([h] + t)
  {
    var s := [h] + t;
    forall i, j | 0 <= i < j < |s| ensures s[i] != s[j] {
      assert s[j] == t[j - 1];
      if i > 0 {
        assert s[i] == t[i - 1];
      }
    }
  }

  lemma DistinctTail<T>(s: seq<T>)
    requires Distinct(s) && s != []
    ensures Distinct(s[1..]) && s[0] !in s[1..]
  {
    var t := s[1..];
    forall i, j | 0 <= i < j < |t| ensures t[i] != t[j] {
      assert t[i] == s[i + 1] && t[j] == s[j + 1];
    }
  }

  lemma {:induction false} InsertDistinct<T>(x: T, s: seq<T>, atLeast: (T, T) -> bool)
    requires Distinct(s) && x !in s
    ensures Distinct(Insert(x, s, atLeast))
  {
    if s != [] {
      InsertUnfold(x, s, atLeast);
      if atLeast(s[0], x) {
        assert s == [s[0]] + s[1..];
        DistinctTail(s);
        InsertDistinct(x, s[1..], atLeast);
        InsertMembers(x, s[1..], s[0], atLeast);
        DistinctCons(s[0], Insert(x, s[1..], atLeast));
      } else {
        DistinctCons(x, s);
      }
    }
  }

  /** Sorting a list without repeats gives a list without repeats. */
  lemma {:induction false} SortDistinct<T>(s: seq<T>, atLeast: (T, T) -> bool)
    requires Distinct(s)
    ensures Distinct(Sort(s, atLeast))
  {
    if s != [] {
      var init, last := s[..|s| - 1], s[|s| - 1];
      assert Distinct(init) by {
        forall i, j | 0 <= i < j < |init| ensures init[i] != init[j] {
          assert init[i] == s[i] && init[j] == s[j];
        }
      }
      SortDistinct(init, atLeast);
      SortPermutation(init, atLeast);
      assert last !in multiset(Sort(init, atLeast)) by {
        assert s == init + [last];
        assert last !in init;
      }
      InsertDistinct(last, Sort(init, atLeast), atLeast);
    }
  }
}
