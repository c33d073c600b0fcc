/**
 * The D&D quiz store (`useDndStore`): the loaded catalog and the state of the
 * quiz in progress, with the operations that start, answer and reset a quiz.
 * The store replaces its `gameState` wholesale on every transition.
 */
module Store {
  import opened Wrappers
  import opened Catalog
  import opened Scoring
  import opened Selection

  /** `DndGameState`. */
  datatype GameState = GameState(
    randomQuestionIds: seq<string>,
    currentIndex: nat,
    scores: Scores,
    isFinished: bool,
    extraQuestionsCount: nat)

  /**
   * What holds of every quiz state the store builds, where `batch` is the
   * number of questions the quiz started with.
   */
  ghost predicate Consistent(gs: GameState, d: DndData, qs: seq<DndQuestion>, batch: nat) {
    && gs.currentIndex < |gs.randomQuestionIds|
    && (forall i | 0 <= i < |gs.randomQuestionIds| :: gs.randomQuestionIds[i] in QuestionIds(qs))
    && (Distinct(QuestionIds(qs)) ==> Distinct(gs.randomQuestionIds))
    && ScoresFit(gs.scores, d)
    && batch <= QuizLength
    && gs.extraQuestionsCount == |gs.randomQuestionIds| - batch
  }

  /** `questions.filter(q => !usedIds.has(q.id))`: the questions not asked yet. */
  function Unused(qs: seq<DndQuestion>, used: seq<string>): (r: seq<DndQuestion>)
    ensures |r| <= |qs|
  {
    if |qs| == 0 then []
    else
      var init := qs[..|qs| - 1];
      var q := qs[|qs| - 1];
      assert forall p :: p in qs <==> p in init || p == q by {
        assert qs == init + [q];
      }
      var rest := Unused(init, used);
      if q.id in used then rest else rest + [q]
  }

  /** The available questions are exactly the pool's questions whose ids are not used. */
  lemma {:induction false} UnusedMembers(qs: seq<DndQuestion>, used: seq<string>)
    ensures forall q :: q in Unused(qs, used) <==> q in qs && q.id !in used
  {
    if |qs| > 0 {
      var init := qs[..|qs| - 1];
      assert qs == init + [qs[|qs| - 1]];
      UnusedMembers(init, used);
    }
  }

  /** Using one more id never makes more questions available. */
  lemma {:induction false} UnusedNotGrowing(qs: seq<DndQuestion>, used: seq<string>, x: string)
    ensures |Unused(qs, used + [x])| <= |Unused(qs, used)|
  {
    if |qs| > 0 {
      UnusedNotGrowing(qs[..|qs| - 1], used, x);
    }
  }

  /** Appending the id of an available question makes strictly fewer questions available. */
  lemma {:induction false} UnusedShrinks(qs: seq<DndQuestion>, used: seq<string>, q: DndQuestion)
    requires q in Unused(qs, used)
    ensures |Unused(qs, used + [q.id])| < |Unused(qs, used)|
  {
    UnusedMembers(qs, used);
    var init := qs[..|qs| - 1];
    var last := qs[|qs| - 1];
    assert qs == init + [last];
    if last.id == q.id {
      UnusedNotGrowing(init, used, q.id);
    } else {
      assert q in init;
      UnusedMembers(init, used);
      UnusedShrinks(init, used, q);
    }
  }

  /**
   * Queuing an unasked question after the last one keeps the state consistent:
   * the position points at the new question, no id repeats, and the extra
   * count still covers exactly the ids beyond the first batch.
   */
  lemma ExtendConsistent(gs: GameState, d: DndData, qs: seq<DndQuestion>, batch: nat, ns: Scores, q: DndQuestion)
    requires Consistent(gs, d, qs, batch) && ScoresFit(ns, d)
    requires gs.currentIndex == |gs.randomQuestionIds| - 1
    requires q in Unused(qs, gs.randomQuestionIds)
    ensures Consistent(gs.(scores := ns, currentIndex := |gs.randomQuestionIds|,
                           randomQuestionIds := gs.randomQuestionIds + [q.id],
                           extraQuestionsCount := gs.extraQuestionsCount + 1), d, qs, batch)
  {
    var ids := gs.randomQuestionIds + [q.id];
    UnusedMembers(qs, gs.randomQuestionIds);
    var k :| 0 <= k < |qs| && qs[k] == q;
    assert QuestionIds(qs)[k] == q.id;
    assert forall i | 0 <= i < |gs.randomQuestionIds| :: ids[i] == gs.randomQuestionIds[i];
  }

  /**
   * How `submitAnswer` moves from `gs` once the answer's votes gave the
   * tallies `ns`: to the next queued question; after the last one, to one more
   * question not asked yet when some family is tied and such a question is
   * left; and otherwise to the finished quiz, position and ids unchanged.
   */
  ghost predicate Transition(gs: GameState, ns: Scores, qs: seq<DndQuestion>, gs': GameState): (b: bool)
    ensures b ==> gs'.scores == ns
    ensures b ==> |gs.randomQuestionIds| <= |gs'.randomQuestionIds| <= |gs.randomQuestionIds| + 1
    ensures b ==> gs'.randomQuestionIds[..|gs.randomQuestionIds|] == gs.randomQuestionIds
  {
    var ids := gs.randomQuestionIds;
    var available := Unused(qs, ids);
    if gs.currentIndex != |ids| - 1 then
      gs' == gs.(scores := ns, currentIndex := gs.currentIndex + 1)
    else if AnyTie(ns) && |available| > 0 then
      exists q :: q in available &&
        gs' == gs.(scores := ns, currentIndex := |ids|, randomQuestionIds := ids + [q.id],
                   extraQuestionsCount := gs.extraQuestionsCount + 1)
    else
      gs' == gs.(scores := ns, isFinished := true)
  }

  /**
   * No transition repeats an id: the appended question is one whose id has
   * not been used, whatever the catalog holds.
   */
  lemma TransitionKeepsDistinct(gs: GameState, ns: Scores, qs: seq<DndQuestion>, gs': GameState)
    requires Transition(gs, ns, qs, gs') && Distinct(gs.randomQuestionIds)
    ensures Distinct(gs'.randomQuestionIds)
  {
    var ids := gs.randomQuestionIds;
    if gs.currentIndex == |ids| - 1 && AnyTie(ns) && |Unused(qs, ids)| > 0 {
      UnusedMembers(qs, ids);
    }
  }

  /**
   * Every transition keeps the state consistent: the position stays in
   * bounds, no id repeats, every tally keeps one key per outcome, and the
   * extra count covers exactly the ids beyond the first batch.
   */
  lemma TransitionConsistent(gs: GameState, d: DndData, qs: seq<DndQuestion>, batch: nat, ns: Scores, gs': GameState)
    requires Consistent(gs, d, qs, batch) && ScoresFit(ns, d)
    requires Transition(gs, ns, qs, gs')
    ensures Consistent(gs', d, qs, batch)
  {
    var ids := gs.randomQuestionIds;
    if gs.currentIndex == |ids| - 1 && AnyTie(ns) && |Unused(qs, ids)| > 0 {
      var q :| q in Unused(qs, ids) &&
        gs' == gs.(scores := ns, currentIndex := |ids|, randomQuestionIds := ids + [q.id],
                   extraQuestionsCount := gs.extraQuestionsCount + 1);
      ExtendConsistent(gs, d, qs, batch, ns, q);
    }
  }

  /** After the last queued question the quiz either grows by one question or finishes. */
  lemma TransitionAtLast(gs: GameState, ns: Scores, qs: seq<DndQuestion>, gs': GameState)
    requires Transition(gs, ns, qs, gs') && gs.currentIndex == |gs.randomQuestionIds| - 1 && !gs.isFinished
    ensures || (!gs'.isFinished && |gs'.randomQuestionIds| == |gs.randomQuestionIds| + 1
                && gs'.currentIndex == |gs.randomQuestionIds|)
            || (gs'.isFinished && gs'.randomQuestionIds == gs.randomQuestionIds
                && gs'.currentIndex == gs.currentIndex)
    ensures gs'.isFinished <==> !AnyTie(ns) || |Unused(qs, gs.randomQuestionIds)| == 0
  {
  }

  /**
   * What is left of a quiz: the questions not asked yet, the queued questions
   * from the current one on, and one more step until it is finished.
   */
  ghost function Remaining(gs: GameState, qs: seq<DndQuestion>): int {
    |Unused(qs, gs.randomQuestionIds)| + |gs.randomQuestionIds| - gs.currentIndex
      + (if gs.isFinished then 0 else 1)
  }

  /** Every transition of an unfinished quiz leaves strictly less to do, so every quiz finishes. */
  lemma TransitionProgress(gs: GameState, ns: Scores, qs: seq<DndQuestion>, gs': GameState)
    requires gs.currentIndex < |gs.randomQuestionIds| && !gs.isFinished
    requires Transition(gs, ns, qs, gs')
    ensures 0 <= Remaining(gs', qs) < Remaining(gs, qs)
  {
    var ids := gs.randomQuestionIds;
    if gs.currentIndex == |ids| - 1 && AnyTie(ns) && |Unused(qs, ids)| > 0 {
      var q :| q in Unused(qs, ids) &&
        gs' == gs.(scores := ns, currentIndex := |ids|, randomQuestionIds := ids + [q.id],
                   extraQuestionsCount := gs.extraQuestionsCount + 1);
      UnusedShrinks(qs, ids, q);
    }
  }

  /**
   * The tail of `submitAnswer` once the votes are counted: advance, queue one
   * more question, or finish. The extra question is any unused one; the
   * source draws it with `Math.random`.
   */
  method NextState(gs: GameState, newScores: Scores, qs: seq<DndQuestion>) returns (next: GameState)
    ensures Transition(gs, newScores, qs, next)
  {
    var ids := gs.randomQuestionIds;
    var isLastFixedQuestion := gs.currentIndex == |ids| - 1;
    if isLastFixedQuestion {
      if HasTie(newScores.races) || HasTie(newScores.classes) || HasTie(newScores.backgrounds) {
        var availableQuestions := Unused(qs, ids);
        if |availableQuestions| > 0 {
          var k :| 0 <= k < |availableQuestions|;
          var nextQ := availableQuestions[k];
          next := gs.(scores := newScores, currentIndex := gs.currentIndex + 1,
                      randomQuestionIds := ids + [nextQ.id],
                      extraQuestionsCount := gs.extraQuestionsCount + 1);
          assert nextQ in availableQuestions;
          return;
        }
      }
      next := gs.(scores := newScores, isFinished := true);
    } else {
      next := gs.(scores := newScores, currentIndex := gs.currentIndex + 1);
    }
  }

  class DndStore {
    /** The catalog, as `loadData` left it (`null` when it is not loaded). */
    const data: Option<DndData>
    const questions: Option<seq<DndQuestion>>
    var gameState: Option<GameState>
    /** The number of questions the current quiz started with. */
    ghost var batch: nat

    ghost predicate Valid()
      reads this
    {
      gameState.Some? ==>
        data.Some? && questions.Some? && Consistent(gameState.value, data.value, questions.value, batch)
    }

    constructor (data: Option<DndData>, questions: Option<seq<DndQuestion>>)
      ensures this.data == data && this.questions == questions
      ensures gameState == None && Valid()
    {
      this.data := data;
      this.questions := questions;
      gameState := None;
      batch := 0;
    }

    /**
     * The question being asked: the catalog question whose id is at
     * `currentIndex`, or `None` where `submitAnswer` returns early.
     */
    function CurrentQuestion(): (q: Option<DndQuestion>)
      reads this
      ensures q.Some? ==> gameState.Some? && data.Some? && questions.Some?
      ensures q.Some? ==> q.value in questions.value
      ensures q.Some? ==> gameState.value.currentIndex < |gameState.value.randomQuestionIds|
      ensures q.Some? ==> q.value.id == gameState.value.randomQuestionIds[gameState.value.currentIndex]
      ensures q.Some? ==> exists k | 0 <= k < |questions.value| ::
        questions.value[k] == q.value && forall j | 0 <= j < k :: questions.value[j].id != q.value.id
      ensures (q.None? && gameState.Some? && data.Some? && questions.Some? &&
               gameState.value.currentIndex < |gameState.value.randomQuestionIds|) ==>
        gameState.value.randomQuestionIds[gameState.value.currentIndex] !in QuestionIds(questions.value)
    {
      if gameState.None? || questions.None? || data.None? then None
      else
        var gs := gameState.value;
        if gs.currentIndex < |gs.randomQuestionIds| then
          match FindQuestion(questions.value, gs.randomQuestionIds[gs.currentIndex])
          case None => None
          case Some(k) => Some(questions.value[k])
        else None
    }

    /** In a consistent store, a quiz in progress always has a question to ask. */
    lemma ValidHasQuestion()
      requires Valid() && gameState.Some?
      ensures CurrentQuestion().Some?
    {
      var gs := gameState.value;
      assert gs.randomQuestionIds[gs.currentIndex] in QuestionIds(questions.value);
    }

    /** `answerIndex` names an option of the current question (the source throws otherwise). */
    predicate AnswerInRange(answerIndex: int)
      reads this
    {
      CurrentQuestion().Some? ==> 0 <= answerIndex < |CurrentQuestion().value.attributeIds|
    }

    /**
     * `startQuiz`: shuffle a copy of the pool, keep the first 25 ids, zero every
     * tally. Nothing happens when the catalog is missing or has no questions.
     */
    method StartQuiz(picks: seq<nat>)
      requires Valid()
      requires questions.Some? ==> ValidPicks(picks, |questions.value|)
      modifies this
      ensures Valid()
      ensures questions.None? || data.None? || |questions.value| == 0 ==> unchanged(this)
      ensures questions.Some? && data.Some? && |questions.value| > 0 ==>
        gameState == Some(GameState(SelectIds(Shuffled(questions.value, picks)), 0,
                                    InitialScores(data.value), false, 0))
    {
      if questions.None? || data.None? || |questions.value| == 0 {
        return;
      }
      var qs := questions.value;
      var shuffled := new DndQuestion[|qs|](i requires 0 <= i < |qs| => qs[i]);
      assert shuffled[..] == qs;
      ShuffleInPlace(shuffled, picks);
      var selectedIds := SelectIds(shuffled[..]);
      InitialSelection(qs, picks);
      gameState := Some(GameState(selectedIds, 0, InitialScores(data.value), false, 0));
      batch := |selectedIds|;
    }

    /**
     * `submitAnswer`: score the chosen option, then move to the next queued
     * question; after the last one, queue one unasked question if some family
     * is tied and one is left, and finish otherwise.
     */
    method SubmitAnswer(answerIndex: int)
      requires Valid()
      requires gameState.Some? ==> !gameState.value.isFinished
      requires AnswerInRange(answerIndex)
      modifies this
      ensures Valid() && batch == old(batch)
      ensures old(CurrentQuestion()).None? ==> gameState == old(gameState)
      ensures old(CurrentQuestion()).Some? ==>
        && gameState.Some?
        && Transition(old(gameState.value),
                      Scored(old(gameState.value.scores), data.value,
                             old(CurrentQuestion().value.attributeIds[answerIndex])),
                      questions.value, gameState.value)
      ensures old(gameState).Some? ==> gameState.Some? && ScoresGrow(old(gameState.value.scores), gameState.value.scores)
      ensures old(gameState).Some? ==>
        0 <= Remaining(gameState.value, questions.value) < Remaining(old(gameState.value), questions.value)
    {
      if gameState.Some? {
        ValidHasQuestion();
      }
      var current := CurrentQuestion();
      if current.None? {
        return;
      }
      var gs := gameState.value;
      var d := data.value;
      var qs := questions.value;
      var selectedAttributes := current.value.attributeIds[answerIndex];
      var newScores := AwardVotes(gs.scores, d, selectedAttributes);
      ScoredGrows(gs.scores, d, selectedAttributes);
      var ids := gs.randomQuestionIds;
      var next := NextState(gs, newScores, qs);
      TransitionConsistent(gs, d, qs, batch, newScores, next);
      TransitionProgress(gs, newScores, qs, next);
      gameState := Some(next);
    }

    /** `resetQuiz`: forget the quiz. */
    method ResetQuiz()
      modifies this`gameState
      ensures gameState == None && Valid()
    {
      gameState := None;
    }
  }
}
