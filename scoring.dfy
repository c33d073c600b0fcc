/**
 * Score keeping of the D&D quiz (the pure parts of `dndStore.ts`): the zeroed
 * tallies a quiz starts from, the votes one answer awards, and the tie test
 * that decides whether the quiz asks one more question.
 */
module Scoring {
  import opened Wrappers
  import opened Records
  import opened Catalog

  /** One tally per outcome family. */
  datatype Scores = Scores(races: Record, classes: Record, backgrounds: Record)

  /** A tally has one key per outcome id of its family and no other. */
  ghost predicate Fits(r: Record, family: seq<Outcome>) {
    KeysDistinct(r) && Keys(r) == IdSet(family)
  }

  ghost predicate ScoresFit(s: Scores, d: DndData) {
    Fits(s.races, d.races) && Fits(s.classes, d.classes) && Fits(s.backgrounds, d.backgrounds)
  }

  /** `r'` has the keys of `r` in the same order, and no number went down. */
  ghost predicate Grows(r: Record, r': Record) {
    |r'| == |r| && forall i | 0 <= i < |r| :: r'[i].key == r[i].key && r'[i].value >= r[i].value
  }

  ghost predicate ScoresGrow(s: Scores, s': Scores) {
    Grows(s.races, s'.races) && Grows(s.classes, s'.classes) && Grows(s.backgrounds, s'.backgrounds)
  }

  /** `Object.fromEntries(family.map(o => [o.id, 0]))`. */
  function InitialTally(family: seq<Outcome>): (r: Record)
    ensures Fits(r, family)
    ensures forall i | 0 <= i < |r| :: r[i].value == 0
    ensures Distinct(OutcomeIds(family)) ==> |r| == |family| && forall i | 0 <= i < |r| :: r[i].key == family[i].id
  {
    var es := seq(|family|, i requires 0 <= i < |family| => Entry(family[i].id, 0));
    forall x | x in IdSet(family) ensures x in set i | 0 <= i < |es| :: es[i].key {
      var i :| 0 <= i < |family| && family[i].id == x;
      assert es[i].key == x;
    }
    assert (set i | 0 <= i < |es| :: es[i].key) == IdSet(family);
    FromEntriesValues(es, 0);
    if Distinct(OutcomeIds(family)) then
      FromEntriesDistinct(es);
      FromEntries(es)
    else
      FromEntries(es)
  }

  /** `initialScores(data)`: every outcome of every family at 0. */
  function InitialScores(d: DndData): (s: Scores)
    ensures ScoresFit(s, d)
    ensures forall x :: Get(s.races, x) == 0 && Get(s.classes, x) == 0 && Get(s.backgrounds, x) == 0
  {
    Scores(InitialTally(d.races), InitialTally(d.classes), InitialTally(d.backgrounds))
  }

  /**
   * The body of the `forEach` for one family: the first outcome owning `attr`
   * gets one more vote (`r[o.id] = (r[o.id] || 0) + 1`); without an owner nothing changes.
   */
  function VoteFor(r: Record, family: seq<Outcome>, attr: string): (r': Record)
    ensures FindOwner(family, attr).None? ==> r' == r
    ensures FindOwner(family, attr).Some? ==> Keys(r') == Keys(r) + {family[FindOwner(family, attr).value].id}
    ensures KeysDistinct(r) ==> KeysDistinct(r')
  {
    match FindOwner(family, attr)
    case None => r
    case Some(k) => Put(r, family[k].id, Get(r, family[k].id) + 1)
  }

  /** The votes a group earns in one family, in order: the owner's id of each owned attribute. */
  function Owners(family: seq<Outcome>, group: seq<string>): (ids: seq<string>)
    ensures |ids| <= |group|
  {
    if |group| == 0 then []
    else
      var rest := Owners(family, group[..|group| - 1]);
      match FindOwner(family, group[|group| - 1])
      case None => rest
      case Some(k) => rest + [family[k].id]
  }

  /** One family's tally after every attribute of `group` has voted, first to last. */
  function Tally(r: Record, family: seq<Outcome>, group: seq<string>): (r': Record)
    ensures KeysDistinct(r) ==> KeysDistinct(r')
  {
    if |group| == 0 then r
    else VoteFor(Tally(r, family, group[..|group| - 1]), family, group[|group| - 1])
  }

  /** The three tallies after one answer: the families vote independently. */
  function Scored(s: Scores, d: DndData, group: seq<string>): (s': Scores)
    ensures ScoresFit(s, d) ==> ScoresFit(s', d)
  {
    assert ScoresFit(s, d) ==> ScoresFit(Scores(Tally(s.races, d.races, group), Tally(s.classes, d.classes, group),
                                                Tally(s.backgrounds, d.backgrounds, group)), d) by {
      if ScoresFit(s, d) {
        TallyGrows(s.races, d.races, group);
        TallyGrows(s.classes, d.classes, group);
        TallyGrows(s.backgrounds, d.backgrounds, group);
      }
    }
    Scores(Tally(s.races, d.races, group), Tally(s.classes, d.classes, group),
           Tally(s.backgrounds, d.backgrounds, group))
  }

  /** Every outcome's number grows by exactly the votes the group gives it. */
  lemma {:induction false} TallyCounts(r: Record, family: seq<Outcome>, group: seq<string>, x: string)
    requires KeysDistinct(r)
    ensures Get(Tally(r, family, group), x) == Get(r, x) + multiset(Owners(family, group))[x]
  {
    if |group| > 0 {
      var init := group[..|group| - 1];
      TallyCounts(r, family, init, x);
      var t := Tally(r, family, init);
      match FindOwner(family, group[|group| - 1])
      case None =>
      case Some(k) =>
        GetAfterPut(t, family[k].id, Get(t, family[k].id) + 1, x);
    }
  }

  /** On a tally that already has a key per outcome, voting keeps the keys and their order and lowers nothing. */
  lemma {:induction false} TallyGrows(r: Record, family: seq<Outcome>, group: seq<string>)
    requires KeysDistinct(r) && IdSet(family) <= Keys(r)
    ensures Grows(r, Tally(r, family, group))
    ensures Keys(Tally(r, family, group)) == Keys(r)
  {
    if |group| > 0 {
      var init := group[..|group| - 1];
      TallyGrows(r, family, init);
      var t := Tally(r, family, init);
      match FindOwner(family, group[|group| - 1])
      case None =>
      case Some(k) =>
        assert family[k].id in IdSet(family);
        PutShape(t, family[k].id, Get(t, family[k].id) + 1);
        forall i | 0 <= i < |t| && t[i].key == family[k].id ensures Get(t, family[k].id) == t[i].value {
          GetAt(t, i);
        }
    }
  }

  /** One attribute adds one to the total when it has an owner, and nothing otherwise. */
  lemma VoteTotal(r: Record, family: seq<Outcome>, attr: string)
    ensures Total(VoteFor(r, family, attr)) == Total(r) + if FindOwner(family, attr).Some? then 1 else 0
  {
    match FindOwner(family, attr)
    case None =>
    case Some(k) =>
      var id := family[k].id;
      assert VoteFor(r, family, attr) == Put(r, id, Get(r, id) + 1);
      TotalIncrement(r, id);
  }

  /** A family's total grows by one per owned attribute, so by at most the group's length. */
  lemma {:induction false} TallyTotal(r: Record, family: seq<Outcome>, group: seq<string>)
    ensures Total(Tally(r, family, group)) == Total(r) + |Owners(family, group)|
    ensures Total(Tally(r, family, group)) <= Total(r) + |group|
  {
    if |group| > 0 {
      var init := group[..|group| - 1];
      TallyTotal(r, family, init);
      VoteTotal(Tally(r, family, init), family, group[|group| - 1]);
    }
  }

  /** Scoring one answer keeps every tally fitting its family and lowers no number. */
  lemma ScoredGrows(s: Scores, d: DndData, group: seq<string>)
    requires ScoresFit(s, d)
    ensures ScoresFit(Scored(s, d, group), d)
    ensures ScoresGrow(s, Scored(s, d, group))
  {
    TallyGrows(s.races, d.races, group);
    TallyGrows(s.classes, d.classes, group);
    TallyGrows(s.backgrounds, d.backgrounds, group);
  }

  /**
   * `selectedAttributes.forEach(...)` over copies of the three tallies: each
   * attribute votes in the races, then the classes, then the backgrounds.
   */
  method AwardVotes(s: Scores, d: DndData, group: seq<string>) returns (ns: Scores)
    ensures ns == Scored(s, d, group)
  {
    var races, classes, backgrounds := s.races, s.classes, s.backgrounds;
    var i := 0;
    while i < |group|
      invariant 0 <= i <= |group|
      invariant races == Tally(s.races, d.races, group[..i])
      invariant classes == Tally(s.classes, d.classes, group[..i])
      invariant backgrounds == Tally(s.backgrounds, d.backgrounds, group[..i])
    {
      var attr := group[i];
      assert group[..i + 1][..i] == group[..i];
      races := VoteFor(races, d.races, attr);
      classes := VoteFor(classes, d.classes, attr);
      backgrounds := VoteFor(backgrounds, d.backgrounds, attr);
      i := i + 1;
    }
    assert group[..|group|] == group;
    ns := Scores(races, classes, backgrounds);
  }

  /** `Math.max(...vs)` on a non-empty list. */
  function MaxOf(vs: seq<int>): (m: int)
    requires |vs| > 0
    ensures exists i | 0 <= i < |vs| :: vs[i] == m
    ensures forall i | 0 <= i < |vs| :: vs[i] <= m
  {
    if |vs| == 1 then vs[0]
    else
      var m := MaxOf(vs[1..]);
      assert forall i | 1 <= i < |vs| :: vs[i] == vs[1..][i - 1];
      if vs[0] > m then vs[0] else m
  }

  /** `vs.filter(x => x === v).length`. */
  function CountOf(vs: seq<int>, v: int): (n: nat)
    ensures n <= |vs|
  {
    if |vs| == 0 then 0
    else (if vs[0] == v then 1 else 0) + CountOf(vs[1..], v)
  }

  /** `hasTie(r)`: at least two values equal the largest one; an empty object is never tied. */
  function HasTie(r: Record): (b: bool)
    ensures |r| <= 1 ==> !b
  {
    var vs := Values(r);
    |vs| > 0 && CountOf(vs, MaxOf(vs)) > 1
  }

  /** Some family of the scores is tied. */
  function AnyTie(s: Scores): (b: bool)
    ensures b ==> |s.races| > 1 || |s.classes| > 1 || |s.backgrounds| > 1
  {
    HasTie(s.races) || HasTie(s.classes) || HasTie(s.backgrounds)
  }

  lemma {:induction false} CountOfPositive(vs: seq<int>, v: int)
    ensures CountOf(vs, v) > 0 <==> exists i | 0 <= i < |vs| :: vs[i] == v
  {
    if |vs| > 0 {
      CountOfPositive(vs[1..], v);
      assert forall i | 1 <= i < |vs| :: vs[i] == vs[1..][i - 1];
    }
  }

  /** The filter finds more than one `v` exactly when `v` sits at two positions. */
  lemma {:induction false} CountOfTwo(vs: seq<int>, v: int)
    ensures CountOf(vs, v) > 1 <==> exists i, j | 0 <= i < j < |vs| :: vs[i] == v && vs[j] == v
  {
    if |vs| > 0 {
      var tail := vs[1..];
      assert forall i | 1 <= i < |vs| :: vs[i] == tail[i - 1];
      CountOfTwo(tail, v);
      CountOfPositive(tail, v);
      if vs[0] == v && CountOf(tail, v) > 0 {
        var j :| 0 <= j < |tail| && tail[j] == v;
        assert vs[0] == v && vs[j + 1] == v;
      }
      if exists i, j | 0 <= i < j < |vs| :: vs[i] == v && vs[j] == v {
        var i, j :| 0 <= i < j < |vs| && vs[i] == v && vs[j] == v;
        if i > 0 {
          assert tail[i - 1] == v && tail[j - 1] == v;
        } else {
          assert tail[j - 1] == v;
        }
      }
    }
  }

  /** No number of the tally exceeds `v`. */
  ghost predicate IsTop(r: Record, v: int) {
    forall k | 0 <= k < |r| :: r[k].value <= v
  }

  /** A tally is tied exactly when two distinct entries share the largest number. */
  lemma HasTieIff(r: Record)
    ensures HasTie(r) <==> exists i, j | 0 <= i < j < |r| :: r[i].value == r[j].value && IsTop(r, r[i].value)
  {
    var vs := Values(r);
    if |vs| > 0 {
      var m := MaxOf(vs);
      CountOfTwo(vs, m);
      if exists i, j | 0 <= i < j < |r| :: r[i].value == r[j].value && IsTop(r, r[i].value) {
        var i, j :| 0 <= i < j < |r| && r[i].value == r[j].value && IsTop(r, r[i].value);
        var w :| 0 <= w < |vs| && vs[w] == m;
        assert r[w].value <= r[i].value;
        assert vs[i] == m && vs[j] == m;
      }
    }
  }
}
