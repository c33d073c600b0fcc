/**
 * The quiz catalog (`DndData`, `DndQuestion`): immutable data loaded once.
 * Outcomes come in three families (races, classes, backgrounds); each names
 * the attribute ids that earn it a vote. Each question lists, per answer
 * option, the group of attribute ids that option awards.
 */
module Catalog {
  import opened Wrappers

  /** One race, class or background: its id, its name per language, its attribute ids. */
  datatype Outcome = Outcome(id: string, name: map<string, string>, attributeIds: seq<string>)

  datatype DndData = DndData(
    races: seq<Outcome>,
    classes: seq<Outcome>,
    backgrounds: seq<Outcome>,
    attributes: map<string, map<string, string>>)

  /** A question's text and answer texts in one language. */
  datatype Translation = Translation(question: string, answers: seq<string>)

  /** `attributeIds[i]` is the group of attribute ids awarded by answer option `i`. */
  datatype DndQuestion = DndQuestion(
    id: string,
    attributeIds: seq<seq<string>>,
    translations: map<string, Translation>)

  predicate Distinct(s: seq<string>) {
    forall i, j | 0 <= i < j < |s| :: s[i] != s[j]
  }

  /** `family.map(o => o.id)`. */
  function OutcomeIds(family: seq<Outcome>): (ids: seq<string>)
    ensures |ids| == |family|
    ensures forall i | 0 <= i < |family| :: ids[i] == family[i].id
  {
    seq(|family|, i requires 0 <= i < |family| => family[i].id)
  }

  function IdSet(family: seq<Outcome>): set<string> {
    set i | 0 <= i < |family| :: family[i].id
  }

  /** `questions.map(q => q.id)`. */
  function QuestionIds(qs: seq<DndQuestion>): (ids: seq<string>)
    ensures |ids| == |qs|
    ensures forall i | 0 <= i < |qs| :: ids[i] == qs[i].id
  {
    seq(|qs|, i requires 0 <= i < |qs| => qs[i].id)
  }

  /** `s.findIndex(p)`: the first position whose element satisfies `p`, if any. */
  function FindFirst<T>(s: seq<T>, p: T -> bool): (o: Option<nat>)
    ensures o.Some? ==> o.value < |s| && p(s[o.value])
    ensures o.Some? ==> forall j | 0 <= j < o.value :: !p(s[j])
    ensures o.None? ==> forall j | 0 <= j < |s| :: !p(s[j])
  {
    if |s| == 0 then None
    else if p(s[0]) then Some(0)
    else match FindFirst(s[1..], p)
      case None => None
      case Some(i) => Some(i + 1)
  }

  /** `family.find(o => o.attributeIds.includes(attr))`: the outcome that owns an attribute. */
  function FindOwner(family: seq<Outcome>, attr: string): (o: Option<nat>)
    ensures o.Some? ==> o.value < |family| && attr in family[o.value].attributeIds
    ensures o.Some? ==> forall j | 0 <= j < o.value :: attr !in family[j].attributeIds
    ensures o.None? ==> forall j | 0 <= j < |family| :: attr !in family[j].attributeIds
  {
    FindFirst(family, (c: Outcome) => attr in c.attributeIds)
  }

  /** `family.find(o => o.id === id)`. */
  function FindOutcome(family: seq<Outcome>, id: string): (o: Option<nat>)
    ensures o.Some? ==> o.value < |family| && family[o.value].id == id
    ensures o.Some? ==> forall j | 0 <= j < o.value :: family[j].id != id
    ensures o.None? <==> id !in IdSet(family)
  {
    FindFirst(family, (c: Outcome) => c.id == id)
  }

  /** `questions.find(q => q.id === id)`. */
  function FindQuestion(qs: seq<DndQuestion>, id: string): (o: Option<nat>)
    ensures o.Some? ==> o.value < |qs| && qs[o.value].id == id
    ensures o.Some? ==> forall j | 0 <= j < o.value :: qs[j].id != id
    ensures o.None? <==> id !in QuestionIds(qs)
  {
    FindFirst(qs, (q: DndQuestion) => q.id == id)
  }
}
