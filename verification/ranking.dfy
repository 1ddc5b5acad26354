/**
 Ranking of one face's expression scores. The application turns the score map
 into its `[label, score]` entries, sorts them by decreasing score with a
 stable sort and keeps the first entry. This module models that sort, and a
 plain left-to-right scan for the first maximum that serves as the reference
 for what the ranking means.
 */
module Ranking {

  /** One `[label, score]` entry of a face's expression scores. */
  datatype Entry = Entry(expression: string, score: real)

  /** `k` indexes a maximal score of `s` and no earlier entry reaches it. */
  predicate IsFirstMax(s: seq<Entry>, k: int)
  {
    && 0 <= k < |s|
    && (forall j :: 0 <= j < |s| ==> s[j].score <= s[k].score)
    && (forall j :: 0 <= j < k ==> s[j].score < s[k].score)
  }

  /** Reference ranking: the index of the first entry with the largest score. */
  function FirstMaxIndex(s: seq<Entry>): (k: nat)
    requires |s| > 0
    ensures IsFirstMax(s, k)
  {
    if |s| == 1 then 0
    else
      var k := FirstMaxIndex(s[1..]);
      if s[0].score >= s[k + 1].score then 0 else k + 1
  }

  /** At most one index is the first maximum, so the ranking is a function of its input. */
  lemma {:induction false} FirstMaxUnique(s: seq<Entry>, k1: int, k2: int)
    requires IsFirstMax(s, k1) && IsFirstMax(s, k2)
    ensures k1 == k2
  {
    assert s[k1].score == s[k2].score;
  }

  /** Entries in non-increasing score order, the order the comparator `b[1] - a[1]` asks for. */
  predicate SortedByScoreDesc(s: seq<Entry>)
  {
    forall i, j :: 0 <= i < j < |s| ==> s[i].score >= s[j].score
  }

  /**
   Inserts `x` in front of the first entry of `t` whose score does not exceed
   `x`'s, so that `x` stays ahead of later entries with the same score.
   */
  function Insert(x: Entry, t: seq<Entry>): (r: seq<Entry>)
    ensures |r| == |t| + 1
    ensures multiset(r) == multiset(t) + multiset{x}
  {
    if |t| == 0 || x.score >= t[0].score then [x] + t
    else
      assert t == [t[0]] + t[1..];
      [t[0]] + Insert(x, t[1..])
  }

  /** An entry of the result of an insertion is the inserted entry or an entry of the list. */
  lemma {:induction false} InsertMember(x: Entry, t: seq<Entry>, e: Entry)
    requires e in Insert(x, t)
    ensures e == x || e in t
  {
    assert e in multiset(Insert(x, t));
  }

  /** Inserting into a sorted sequence keeps it sorted. */
  lemma {:induction false} InsertKeepsSorted(x: Entry, t: seq<Entry>)
    requires SortedByScoreDesc(t)
    ensures SortedByScoreDesc(Insert(x, t))
  {
    if |t| > 0 && x.score < t[0].score {
      var rest := Insert(x, t[1..]);
      InsertKeepsSorted(x, t[1..]);
      forall e | e in rest
        ensures e.score <= t[0].score
      {
        InsertMember(x, t[1..], e);
        if e != x {
          var j :| 0 <= j < |t[1..]| && t[1..][j] == e;
          assert t[j + 1] == e;
        }
      }
      var r := [t[0]] + rest;
      assert r == Insert(x, t);
      forall i, j | 0 <= i < j < |r|
        ensures r[i].score >= r[j].score
      {
        if i == 0 {
          assert r[j] == rest[j - 1];
          assert r[j] in rest;
        } else {
          assert r[i] == rest[i - 1] && r[j] == rest[j - 1];
        }
      }
    }
  }

  /**
   A stable sort by decreasing score. The runtime's sort is stable and every
   stable sort orders a sequence the same way, so insertion sort stands for it.
   */
  function SortByScoreDesc(s: seq<Entry>): (r: seq<Entry>)
    ensures |r| == |s|
    ensures multiset(r) == multiset(s)
    ensures SortedByScoreDesc(r)
  {
    if |s| == 0 then []
    else
      assert s == [s[0]] + s[1..];
      InsertKeepsSorted(s[0], SortByScoreDesc(s[1..]));
      Insert(s[0], SortByScoreDesc(s[1..]))
  }

  /** The head of the stable descending sort is the first maximal entry. */
  lemma {:induction false} SortHeadIsFirstMax(s: seq<Entry>)
    requires |s| > 0
    ensures SortByScoreDesc(s)[0] == s[FirstMaxIndex(s)]
  {
    if |s| > 1 {
      SortHeadIsFirstMax(s[1..]);
      var k := FirstMaxIndex(s[1..]);
      assert s[1..][k] == s[k + 1];
    }
  }

  /**
   The ranker: the first entry after sorting by decreasing score. It is the
   entry with the largest score, and among equal largest scores the one that
   comes first in the input.
   */
  function Top(s: seq<Entry>): (e: Entry)
    requires |s| > 0
    ensures e in s
    ensures forall j :: 0 <= j < |s| ==> s[j].score <= e.score
    ensures e == s[FirstMaxIndex(s)]
  {
    SortHeadIsFirstMax(s);
    SortByScoreDesc(s)[0]
  }

  /** A strictly largest score always wins. */
  lemma {:induction false} TopOfUniqueMax(s: seq<Entry>, k: int)
    requires 0 <= k < |s|
    requires forall j :: 0 <= j < |s| && j != k ==> s[j].score < s[k].score
    ensures Top(s) == s[k]
  {
  }

  /** Among tied largest scores the entry earliest in the input wins, whatever follows it. */
  lemma {:induction false} TopOfTie(s: seq<Entry>, i: int, j: int)
    requires 0 <= i < j < |s|
    requires s[i].score == s[j].score
    requires forall k :: 0 <= k < |s| ==> s[k].score <= s[i].score
    requires forall k :: 0 <= k < i ==> s[k].score < s[i].score
    ensures Top(s) == s[i]
    ensures s[i] != s[j] ==> Top(s) != s[j]
  {
  }
}
