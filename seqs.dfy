/** Small facts about sequences that the other modules share. */
module Seqs {

  /** Concatenation regroups freely. */
  lemma Assoc<T>(a: seq<T>, b: seq<T>, c: seq<T>)
    ensures (a + b) + c == a + (b + c)
  {
  }

  /** Slicing a concatenation inside its first part. */
  lemma SliceAppend<T>(a: seq<T>, t: seq<T>, n: int)
    requires 0 <= n <= |a|
    ensures (a + t)[..n] == a[..n]
    ensures (a + t)[n..] == a[n..] + t
  {
  }

  /** `r` is `s` with some elements left out: the elements of `r` occur in
      `s` in the same order. */
  ghost predicate Subsequence<T>(r: seq<T>, s: seq<T>)
    decreases |s|
  {
    r == [] || (s != [] && ((r[0] == s[0] && Subsequence(r[1..], s[1..])) || Subsequence(r, s[1..])))
  }

  /** A filter step: what is a subsequence of the tail is one of the whole,
      and stays one with the head put in front. */
  lemma SubsequenceStep<T>(s: seq<T>, r: seq<T>)
    requires s != [] && Subsequence(r, s[1..])
    ensures Subsequence(r, s) && Subsequence([s[0]] + r, s)
  {
    assert ([s[0]] + r)[1..] == r;
  }

  /** One step of a list filter: the head of `s`, kept when it satisfies
      `p`, in front of the filtered tail. Whatever the tail's filtering
      promises, the whole filtering promises: only elements of `s` that
      satisfy `p`, each as often as in `s`, in their order in `s`. */
  lemma FilterStep<T>(s: seq<T>, rest: seq<T>, p: T -> bool)
    requires s != []
    requires forall k :: 0 <= k < |rest| ==> rest[k] in s[1..] && p(rest[k])
    requires forall x :: multiset(rest)[x] == if p(x) then multiset(s[1..])[x] else 0
    requires Subsequence(rest, s[1..])
    ensures var r := (if p(s[0]) then [s[0]] else []) + rest;
      && (forall k :: 0 <= k < |r| ==> r[k] in s && p(r[k]))
      && (forall x :: multiset(r)[x] == if p(x) then multiset(s)[x] else 0)
      && Subsequence(r, s)
  {
    var head := if p(s[0]) then [s[0]] else [];
    var r := head + rest;
    assert multiset(s) == multiset{s[0]} + multiset(s[1..]) by {
      assert s == [s[0]] + s[1..];
    }
    assert multiset(r) == multiset(head) + multiset(rest);
    SubsequenceStep(s, rest);
    if head == [] {
      assert r == rest;
    }
    forall k | 0 <= k < |r| ensures r[k] in s && p(r[k]) {
      if k >= |head| {
        assert r[k] == rest[k - |head|];
      }
    }
  }

  /** A key that strictly increases along `s` strictly increases along
      every subsequence of `s`. */
  lemma {:induction false} SubsequenceIncreasing<T>(r: seq<T>, s: seq<T>, key: T -> int)
    requires Subsequence(r, s)
    requires forall i, j :: 0 <= i < j < |s| ==> key(s[i]) < key(s[j])
    ensures forall i, j :: 0 <= i < j < |r| ==> key(r[i]) < key(r[j])
    decreases |s|
  {
    if r != [] {
      assert forall i, j :: 0 <= i < j < |s[1..]| ==> key(s[1..][i]) < key(s[1..][j]) by {
        forall i, j | 0 <= i < j < |s[1..]| ensures key(s[1..][i]) < key(s[1..][j]) {
          assert s[1..][i] == s[i + 1] && s[1..][j] == s[j + 1];
        }
      }
      if r[0] == s[0] && Subsequence(r[1..], s[1..]) {
        SubsequenceIncreasing(r[1..], s[1..], key);
        forall i, j | 0 <= i < j < |r| ensures key(r[i]) < key(r[j]) {
          assert r[j] == r[1..][j - 1];
          if i > 0 {
            assert r[i] == r[1..][i - 1];
          } else {
            SubsequenceMember(r[1..], s[1..], j - 1);
          }
        }
      } else {
        SubsequenceIncreasing(r, s[1..], key);
      }
    }
  }

  /** Every element of a subsequence of `s` is at some position of `s`. */
  lemma {:induction false} SubsequenceMember<T>(r: seq<T>, s: seq<T>, k: nat)
    requires Subsequence(r, s) && k < |r|
    ensures exists i :: 0 <= i < |s| && s[i] == r[k]
    decreases |s|
  {
    if r[0] == s[0] && Subsequence(r[1..], s[1..]) {
      if k == 0 {
        assert s[0] == r[k];
      } else {
        SubsequenceMember(r[1..], s[1..], k - 1);
        var i :| 0 <= i < |s[1..]| && s[1..][i] == r[1..][k - 1];
        assert s[i + 1] == r[k];
      }
    } else {
      SubsequenceMember(r, s[1..], k);
      var i :| 0 <= i < |s[1..]| && s[1..][i] == r[k];
      assert s[i + 1] == r[k];
    }
  }

  /** The index of the first occurrence of `x` in `s`, or `|s|` when `x`
      does not occur. */
  function FirstIndex<T(==)>(s: seq<T>, x: T): (i: nat)
    ensures i <= |s| && (i < |s| ==> s[i] == x) && x !in s[..i]
    ensures x in s <==> i < |s|
  {
    if s == [] then 0
    else if s[0] == x then 0
    else
      var i := FirstIndex(s[1..], x);
      assert s[..1 + i] == [s[0]] + s[1..][..i];
      assert s[1..][..|s| - 1] == s[1..];
      1 + i
  }

  /** Appending an element moves no first occurrence, and an element that
      was absent first occurs at the end. */
  lemma FirstIndexSnoc<T>(s: seq<T>, y: T)
    ensures forall x :: x in s ==> FirstIndex(s + [y], x) == FirstIndex(s, x)
    ensures y !in s ==> FirstIndex(s + [y], y) == |s|
  {
    forall x | x in s ensures FirstIndex(s + [y], x) == FirstIndex(s, x) {
      var i, k := FirstIndex(s + [y], x), FirstIndex(s, x);
      assert (s + [y])[..k] == s[..k] && (s + [y])[k] == x;
    }
    if y !in s {
      assert (s + [y])[..|s|] == s;
    }
  }
}
