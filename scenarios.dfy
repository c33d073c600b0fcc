/**
 * A caller's view of the store: what its contracts alone say about a short
 * quiz.
 */
module Scenarios {
  import opened Wrappers
  import opened Records
  import opened Catalog
  import opened Scoring
  import opened Selection
  import opened Store

  /**
   * Two races with disjoint attributes and a pool of one question whose two
   * options award one attribute each: answering option 0 gives the first race
   * one vote, and since no unasked question is left the quiz finishes after
   * that single answer, well short of 25.
   */
  method SingleQuestionQuiz() {
    var a := Outcome("A", map[], ["attrA"]);
    var b := Outcome("B", map[], ["attrB"]);
    var d := DndData([a, b], [], [], map[]);
    var q := DndQuestion("q1", [["attrA"], ["attrB"]], map[]);
    var store := new DndStore(Some(d), Some([q]));
    store.StartQuiz([0]);
    assert Shuffled([q], [0]) == [q];
    ghost var before := store.gameState.value;
    assert before.randomQuestionIds == ["q1"];
    assert store.CurrentQuestion() == Some(q);
    store.SubmitAnswer(0);
    var after := store.gameState.value;
    assert Unused([q], ["q1"]) == [];
    assert after == before.(scores := Scored(InitialScores(d), d, ["attrA"]), isFinished := true);
    assert after.isFinished && after.currentIndex == 0 && after.extraQuestionsCount == 0;
    SingleAnswerVotes(a, b);
    assert Get(after.scores.races, "A") == 1 && Get(after.scores.races, "B") == 0;
  }

  /** The vote of that scenario: option 0 gives race A one vote and race B none. */
  lemma SingleAnswerVotes(a: Outcome, b: Outcome)
    requires a == Outcome("A", map[], ["attrA"]) && b == Outcome("B", map[], ["attrB"])
    ensures Get(Tally(InitialTally([a, b]), [a, b], ["attrA"]), "A") == 1
    ensures Get(Tally(InitialTally([a, b]), [a, b], ["attrA"]), "B") == 0
  {
    assert FindOwner([a, b], "attrA") == Some(0);
    assert Owners([a, b], ["attrA"]) == ["A"];
    TallyCounts(InitialTally([a, b]), [a, b], ["attrA"], "A");
    TallyCounts(InitialTally([a, b]), [a, b], ["attrA"], "B");
  }
}
