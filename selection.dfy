/**
 * How `startQuiz` draws the questions of a quiz: a Fisher-Yates shuffle of a
 * copy of the question pool, then the ids of the first 25 questions.
 */
module Selection {
  import opened Catalog

  /** The number of questions a quiz starts with. */
  const QuizLength: nat := 25

  /** `[s[i], s[j]] = [s[j], s[i]]`. */
  function Swap<T>(s: seq<T>, i: nat, j: nat): (t: seq<T>)
    requires i < |s| && j < |s|
    ensures |t| == |s| && t[i] == s[j] && t[j] == s[i]
    ensures forall k | 0 <= k < |s| && k != i && k != j :: t[k] == s[k]
  {
    s[i := s[j]][j := s[i]]
  }

  lemma SwapPermutes<T>(s: seq<T>, i: nat, j: nat)
    requires i < |s| && j < |s|
    ensures multiset(Swap(s, i, j)) == multiset(s)
  {
    var u := s[i := s[j]];
    assert multiset(u) == multiset(s) - multiset{s[i]} + multiset{s[j]};
    assert multiset(u[j := s[i]]) == multiset(u) - multiset{u[j]} + multiset{s[i]};
  }

  /**
   * The random draws of one shuffle: `picks[i]` stands for
   * `Math.floor(Math.random() * (i + 1))`, the partner of position `i`.
   */
  predicate ValidPicks(picks: seq<nat>, n: nat) {
    n <= |picks| && forall i | 0 <= i < n :: picks[i] <= i
  }

  /** The shuffle from step `i` down to step 1. */
  function ShuffleDown<T>(s: seq<T>, picks: seq<nat>, i: nat): (t: seq<T>)
    requires i < |s| && ValidPicks(picks, |s|)
    ensures |t| == |s|
    decreases i
  {
    if i == 0 then s else ShuffleDown(Swap(s, i, picks[i]), picks, i - 1)
  }

  /** The whole shuffle: step `|s| - 1` down to step 1. */
  function Shuffled<T>(s: seq<T>, picks: seq<nat>): (t: seq<T>)
    requires ValidPicks(picks, |s|)
    ensures |t| == |s|
  {
    if |s| == 0 then s else ShuffleDown(s, picks, |s| - 1)
  }

  lemma {:induction false} ShuffleDownPermutes<T>(s: seq<T>, picks: seq<nat>, i: nat)
    requires i < |s| && ValidPicks(picks, |s|)
    ensures multiset(ShuffleDown(s, picks, i)) == multiset(s)
    decreases i
  {
    if i > 0 {
      SwapPermutes(s, i, picks[i]);
      ShuffleDownPermutes(Swap(s, i, picks[i]), picks, i - 1);
    }
  }

  /** The shuffle only reorders: the result is a permutation of the pool. */
  lemma ShuffledPermutes<T>(s: seq<T>, picks: seq<nat>)
    requires ValidPicks(picks, |s|)
    ensures multiset(Shuffled(s, picks)) == multiset(s)
  {
    if |s| > 0 {
      ShuffleDownPermutes(s, picks, |s| - 1);
    }
  }

  lemma SwapKeepsDistinctIds(s: seq<DndQuestion>, i: nat, j: nat)
    requires i < |s| && j < |s| && Distinct(QuestionIds(s))
    ensures Distinct(QuestionIds(Swap(s, i, j)))
  {
    var t := Swap(s, i, j);
    forall a, b | 0 <= a < b < |t| ensures t[a].id != t[b].id {
      var a' := if a == i then j else if a == j then i else a;
      var b' := if b == i then j else if b == j then i else b;
      assert t[a] == s[a'] && t[b] == s[b'];
      assert QuestionIds(s)[a'] == s[a'].id && QuestionIds(s)[b'] == s[b'].id;
    }
  }

  lemma {:induction false} ShuffleDownKeepsDistinctIds(s: seq<DndQuestion>, picks: seq<nat>, i: nat)
    requires i < |s| && ValidPicks(picks, |s|) && Distinct(QuestionIds(s))
    ensures Distinct(QuestionIds(ShuffleDown(s, picks, i)))
    decreases i
  {
    if i > 0 {
      SwapKeepsDistinctIds(s, i, picks[i]);
      ShuffleDownKeepsDistinctIds(Swap(s, i, picks[i]), picks, i - 1);
    }
  }

  /** A pool with pairwise-distinct ids keeps them distinct through the shuffle. */
  lemma ShuffledKeepsDistinctIds(s: seq<DndQuestion>, picks: seq<nat>)
    requires ValidPicks(picks, |s|) && Distinct(QuestionIds(s))
    ensures Distinct(QuestionIds(Shuffled(s, picks)))
  {
    if |s| > 0 {
      ShuffleDownKeepsDistinctIds(s, picks, |s| - 1);
    }
  }

  /** The shuffle loop, in place on the array `a`. */
  method ShuffleInPlace<T>(a: array<T>, picks: seq<nat>)
    requires ValidPicks(picks, a.Length)
    modifies a
    ensures a[..] == Shuffled(old(a[..]), picks)
  {
    var i := a.Length - 1;
    while i > 0
      invariant -1 <= i < a.Length
      invariant a.Length > 0 ==> 0 <= i && ShuffleDown(a[..], picks, i) == Shuffled(old(a[..]), picks)
      invariant a.Length == 0 ==> a[..] == old(a[..])
    {
      var j := picks[i];
      ghost var before := a[..];
      a[i], a[j] := a[j], a[i];
      assert a[..] == Swap(before, i, j);
      i := i - 1;
    }
  }

  /** `shuffled.slice(0, 25).map(q => q.id)`. */
  function SelectIds(shuffled: seq<DndQuestion>): (ids: seq<string>)
    ensures |ids| == if |shuffled| < QuizLength then |shuffled| else QuizLength
    ensures forall i | 0 <= i < |ids| :: ids[i] == shuffled[i].id
  {
    var n := if |shuffled| < QuizLength then |shuffled| else QuizLength;
    QuestionIds(shuffled[..n])
  }

  /**
   * The questions a quiz starts with: `min(25, |pool|)` ids, each the id of a
   * pool question, pairwise distinct when the pool's ids are.
   */
  lemma {:induction false} InitialSelection(qs: seq<DndQuestion>, picks: seq<nat>)
    requires ValidPicks(picks, |qs|)
    ensures var ids := SelectIds(Shuffled(qs, picks));
      && |ids| == (if |qs| < QuizLength then |qs| else QuizLength)
      && (forall i | 0 <= i < |ids| :: ids[i] in QuestionIds(qs))
      && (Distinct(QuestionIds(qs)) ==> Distinct(ids))
  {
    var sh := Shuffled(qs, picks);
    var ids := SelectIds(sh);
    ShuffledPermutes(qs, picks);
    forall i | 0 <= i < |ids| ensures ids[i] in QuestionIds(qs) {
      assert sh[i] in multiset(qs);
      var k :| 0 <= k < |qs| && qs[k] == sh[i];
      assert QuestionIds(qs)[k] == ids[i];
    }
    if Distinct(QuestionIds(qs)) {
      ShuffledKeepsDistinctIds(qs, picks);
      forall a, b | 0 <= a < b < |ids| ensures ids[a] != ids[b] {
        assert QuestionIds(sh)[a] == ids[a] && QuestionIds(sh)[b] == ids[b];
      }
    }
  }
}
