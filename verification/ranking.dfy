/** How the finite-state dialogue flow picks a transition: score every
    transition of the current state, sort the scores in descending order
    keeping declaration order among ties (Python's `sorted` is stable, also
    with `reverse=True`), then fire the best one only if it clears the
    threshold and leads the runner-up by more than the minimum margin. */
module Ranking {
  import opened Basics

  /** The engine's defaults: `threshold = 0.4`, `min_diff = 0.1`. */
  const DefaultThreshold: real := 0.4
  const DefaultMinDiff: real := 0.1

  /** A transition's score, tagged with its declaration position. */
  datatype Scored = Scored(index: nat, score: real)

  predicate Descending(s: seq<Scored>) {
    forall i, j :: 0 <= i < j < |s| ==> s[i].score >= s[j].score
  }

  /** Among equal scores, earlier declarations come first. */
  predicate TiesInOrder(s: seq<Scored>) {
    forall i, j :: 0 <= i < j < |s| && s[i].score == s[j].score ==> s[i].index < s[j].index
  }

  predicate IncreasingIndices(s: seq<Scored>) {
    forall i, j :: 0 <= i < j < |s| ==> s[i].index < s[j].index
  }

  /** The scores in declaration order, tagged with their positions. */
  function Indexed(scores: seq<real>): (r: seq<Scored>)
    ensures |r| == |scores|
    ensures forall i :: 0 <= i < |r| ==> r[i] == Scored(i, scores[i])
    ensures IncreasingIndices(r)
  {
    seq(|scores|, i requires 0 <= i < |scores| => Scored(i, scores[i]))
  }

  /** Inserts `x` into a descending sequence after every entry scoring at
      least as much, which keeps the sort stable when `x` was declared
      after all of them. */
  function Insert(x: Scored, s: seq<Scored>): (r: seq<Scored>)
    ensures multiset(r) == multiset(s) + multiset{x}
    ensures |r| == |s| + 1
  {
    if s == [] || s[0].score < x.score then [x] + s
    else
      assert s == [s[0]] + s[1..];
      [s[0]] + Insert(x, s[1..])
  }

  lemma {:induction false} InsertDescending(x: Scored, s: seq<Scored>)
    requires Descending(s)
    ensures Descending(Insert(x, s))
  {
    if s != [] && s[0].score >= x.score {
      var rest := Insert(x, s[1..]);
      InsertDescending(x, s[1..]);
      forall k | 0 <= k < |rest|
        ensures s[0].score >= rest[k].score
      {
        assert rest[k] in multiset(rest);
        if rest[k] != x {
          assert rest[k] in multiset(s[1..]);
        }
      }
      assert Insert(x, s) == [s[0]] + rest;
    }
  }

  lemma {:induction false} InsertTiesInOrder(x: Scored, s: seq<Scored>)
    requires Descending(s) && TiesInOrder(s)
    requires forall y :: y in s ==> y.index < x.index
    ensures TiesInOrder(Insert(x, s))
  {
    if s == [] || s[0].score < x.score {
      ConsTiesInOrder(x, s);
    } else {
      var rest := Insert(x, s[1..]);
      InsertTiesInOrder(x, s[1..]);
      forall k | 0 <= k < |rest| && s[0].score == rest[k].score
        ensures s[0].index < rest[k].index
      {
        assert rest[k] in multiset(rest);
        if rest[k] != x {
          assert rest[k] in multiset(s[1..]);
          var q :| 0 <= q < |s[1..]| && s[1..][q] == rest[k];
          assert s[q + 1] == rest[k];
        }
      }
      ConsTiesInOrder(s[0], rest);
    }
  }

  lemma ConsTiesInOrder(a: Scored, rest: seq<Scored>)
    requires TiesInOrder(rest)
    requires forall k :: 0 <= k < |rest| && a.score == rest[k].score ==> a.index < rest[k].index
    ensures TiesInOrder([a] + rest)
  {
    var r := [a] + rest;
    forall i, j | 0 <= i < j < |r| && r[i].score == r[j].score
      ensures r[i].index < r[j].index
    {
      if i > 0 {
        assert r[i] == rest[i - 1] && r[j] == rest[j - 1];
      } else {
        assert r[j] == rest[j - 1];
      }
    }
  }

  /** `sorted(..., key=score, reverse=True)`. */
  function SortDescending(items: seq<Scored>): (r: seq<Scored>)
    ensures multiset(r) == multiset(items)
    ensures |r| == |items|
  {
    if items == [] then []
    else
      assert items == items[..|items| - 1] + [items[|items| - 1]];
      Insert(items[|items| - 1], SortDescending(items[..|items| - 1]))
  }

  /** The sort is descending, and stable for entries listed in declaration
      order. */
  lemma {:induction false} SortDescendingSorted(items: seq<Scored>)
    ensures Descending(SortDescending(items))
    ensures IncreasingIndices(items) ==> TiesInOrder(SortDescending(items))
  {
    if items != [] {
      var prefix := items[..|items| - 1];
      var last := items[|items| - 1];
      var sorted := SortDescending(prefix);
      SortDescendingSorted(prefix);
      InsertDescending(last, sorted);
      if IncreasingIndices(items) {
        forall y | y in sorted
          ensures y.index < last.index
        {
          assert y in multiset(prefix);
          var p :| 0 <= p < |prefix| && prefix[p] == y;
        }
        InsertTiesInOrder(last, sorted);
      }
    }
  }

  /** The selection on the sorted list: the head fires when it scores
      strictly above the threshold and, when there is a runner-up, leads it
      by strictly more than `minDiff`; the result is the declaration
      position of the transition that fires. */
  function Decide(sorted: seq<Scored>, threshold: real, minDiff: real): Option<nat> {
    if |sorted| > 0 && sorted[0].score > threshold then
      if |sorted| >= 2 then
        if sorted[0].score - sorted[1].score > minDiff then Some(sorted[0].index) else None
      else Some(sorted[0].index)
    else None
  }

  /** The transition chosen for the scores, in declaration order. */
  function Choose(scores: seq<real>, threshold: real, minDiff: real): Option<nat> {
    Decide(SortDescending(Indexed(scores)), threshold, minDiff)
  }

  /** The choice stated without sorting: transition `i` fires exactly when
      it scores above the threshold, every earlier transition scores less,
      no later one scores more, and it leads every other transition by more
      than `minDiff`. */
  predicate Fires(scores: seq<real>, i: nat, threshold: real, minDiff: real) {
    i < |scores|
    && scores[i] > threshold
    && (forall j :: 0 <= j < i ==> scores[j] < scores[i])
    && (forall j :: i < j < |scores| ==> scores[j] <= scores[i])
    && (forall j :: 0 <= j < |scores| && j != i ==> scores[i] - scores[j] > minDiff)
  }

  /** `r` lists every transition of `scores` exactly once, by position and
      score, in descending order of score and declaration order among ties. */
  predicate Arrangement(scores: seq<real>, r: seq<Scored>) {
    |r| == |scores| && Descending(r) && TiesInOrder(r)
    && (forall p :: 0 <= p < |r| ==> r[p].index < |scores| && r[p].score == scores[r[p].index])
    && (forall j :: 0 <= j < |scores| ==> j in IndexSet(r))
  }

  function IndexSet(r: seq<Scored>): set<nat> {
    set p | 0 <= p < |r| :: r[p].index
  }

  lemma SortedArrangement(scores: seq<real>)
    ensures Arrangement(scores, SortDescending(Indexed(scores)))
  {
    var items := Indexed(scores);
    var r := SortDescending(items);
    SortDescendingSorted(items);
    forall p | 0 <= p < |r|
      ensures r[p].index < |scores| && r[p].score == scores[r[p].index]
    {
      assert r[p] in multiset(items);
      var q :| 0 <= q < |items| && items[q] == r[p];
    }
    forall j | 0 <= j < |scores|
      ensures j in IndexSet(r)
    {
      assert items[j] in multiset(r);
      var p :| 0 <= p < |r| && r[p] == items[j];
    }
  }

  /** Sorting and taking the head is the same as the choice stated without
      sorting, in both directions. */
  lemma ChooseMeansFires(scores: seq<real>, threshold: real, minDiff: real, i: nat)
    ensures Choose(scores, threshold, minDiff) == Some(i) <==> Fires(scores, i, threshold, minDiff)
  {
    var r := SortDescending(Indexed(scores));
    SortedArrangement(scores);
    if Decide(r, threshold, minDiff) == Some(i) {
      ChosenFires(scores, threshold, minDiff, r);
    }
    if Fires(scores, i, threshold, minDiff) {
      FiresIsHead(scores, threshold, minDiff, r, i);
    }
  }

  lemma ChosenFires(scores: seq<real>, threshold: real, minDiff: real, r: seq<Scored>)
    requires Arrangement(scores, r)
    requires Decide(r, threshold, minDiff).Some?
    ensures Fires(scores, Decide(r, threshold, minDiff).value, threshold, minDiff)
  {
    var i := r[0].index;
    forall j | 0 <= j < |scores| && j != i
      ensures scores[j] <= scores[i] && (j < i ==> scores[j] < scores[i])
      ensures |r| >= 2 && scores[i] - scores[j] >= r[0].score - r[1].score
    {
      assert j in IndexSet(r);
      var p :| 0 <= p < |r| && r[p].index == j;
      assert p != 0;
      assert r[0].score >= r[p].score;
      assert p >= 1 ==> r[1].score >= r[p].score;
    }
  }

  lemma FiresIsHead(scores: seq<real>, threshold: real, minDiff: real, r: seq<Scored>, i: nat)
    requires Arrangement(scores, r)
    requires Fires(scores, i, threshold, minDiff)
    ensures Decide(r, threshold, minDiff) == Some(i)
  {
    assert i in IndexSet(r);
    var p :| 0 <= p < |r| && r[p].index == i;
    assert r[0].score >= r[p].score;
    assert r[0].index == i;
    assert |r| >= 2 ==> r[1].index != r[0].index;
  }

  /** Worked cases with the default threshold and margin: a close
      runner-up blocks the best transition; a clear lead fires it, wherever
      it is declared; a lone transition only needs to clear the threshold. */
  lemma CloseRunnerUpBlocks()
    ensures Choose([0.9, 0.85, 0.3], DefaultThreshold, DefaultMinDiff) == None
  {
    var s := [0.9, 0.85, 0.3];
    assert !Fires(s, 0, DefaultThreshold, DefaultMinDiff) by { assert s[0] - s[1] <= DefaultMinDiff; }
    assert !Fires(s, 1, DefaultThreshold, DefaultMinDiff) by { assert s[0] > s[1]; }
    assert !Fires(s, 2, DefaultThreshold, DefaultMinDiff) by { assert s[2] <= DefaultThreshold; }
    NoneUnlessFires(s, DefaultThreshold, DefaultMinDiff);
    var c := Choose(s, DefaultThreshold, DefaultMinDiff);
    if c.Some? {
      ChooseMeansFires(s, DefaultThreshold, DefaultMinDiff, c.value);
      assert false;
    }
  }

  lemma ClearLeadFires()
    ensures Choose([0.9, 0.5, 0.3], DefaultThreshold, DefaultMinDiff) == Some(0)
  {
    var s := [0.9, 0.5, 0.3];
    assert Fires(s, 0, DefaultThreshold, DefaultMinDiff) by {
      assert forall j :: 0 < j < |s| ==> s[j] <= 0.5;
    }
    ChooseMeansFires(s, DefaultThreshold, DefaultMinDiff, 0);
  }

  lemma ClearLeadFiresAnywhere()
    ensures Choose([0.3, 0.9, 0.5], DefaultThreshold, DefaultMinDiff) == Some(1)
  {
    var s := [0.3, 0.9, 0.5];
    assert Fires(s, 1, DefaultThreshold, DefaultMinDiff) by {
      assert forall j :: 0 <= j < |s| && j != 1 ==> s[j] <= 0.5;
    }
    ChooseMeansFires(s, DefaultThreshold, DefaultMinDiff, 1);
  }

  lemma LoneTransitionNeedsThreshold()
    ensures Choose([0.41], DefaultThreshold, DefaultMinDiff) == Some(0)
    ensures Choose([0.4], DefaultThreshold, DefaultMinDiff) == None
    ensures Choose([], DefaultThreshold, DefaultMinDiff) == None
  {
    assert Indexed([0.41]) == [Scored(0, 0.41)];
    assert Indexed([0.4]) == [Scored(0, 0.4)];
  }

  /** The choice, when there is one, is a declaration position. */
  lemma NoneUnlessFires(scores: seq<real>, threshold: real, minDiff: real)
    ensures Choose(scores, threshold, minDiff).Some? ==> Choose(scores, threshold, minDiff).value < |scores|
  {
    SortedArrangement(scores);
  }
}
