/**
 * What the result screen shows once the quiz is finished: one winner per
 * family, picked by a fold over the tally's entries, shown under its name
 * in the reader's language.
 */
module ResultScreen {
  import opened Wrappers
  import opened Records
  import opened Catalog
  import opened Scoring

  /** The reducer `(a, b) => (a[1] > b[1] ? a : b)`: the running entry survives only a strictly smaller one. */
  function Pick(a: Entry, b: Entry): (e: Entry)
    ensures e == a || e == b
    ensures e.value >= a.value && e.value >= b.value
    ensures a.value == b.value ==> e == b
  {
    if a.value > b.value then a else b
  }

  /**
   * `Object.entries(r).reduce(Pick)`, a left fold without an initial value
   * (so `r` must not be empty). The result is an entry of `r` holding the
   * largest number, and every entry after it holds less.
   */
  function Reduce(r: Record): (e: Entry)
    requires |r| > 0
    ensures IsTop(r, e.value)
    ensures exists i | 0 <= i < |r| :: r[i] == e && forall j | i < j < |r| :: r[j].value < e.value
  {
    if |r| == 1 then r[0]
    else
      var init := r[..|r| - 1];
      var e := Reduce(init);
      assert forall j | 0 <= j < |init| :: r[j] == init[j];
      Pick(e, r[|r| - 1])
  }

  /** `getWinner(r)`: the id of a largest number in the tally. */
  function GetWinner(r: Record): (id: string)
    requires |r| > 0
    ensures id in Keys(r)
    ensures KeysDistinct(r) ==> IsTop(r, Get(r, id))
  {
    var e := Reduce(r);
    assert KeysDistinct(r) ==> Get(r, e.key) == e.value by {
      if KeysDistinct(r) {
        var i :| 0 <= i < |r| && r[i] == e && forall j | i < j < |r| :: r[j].value < e.value;
        GetAt(r, i);
      }
    }
    e.key
  }

  /**
   * Ties go to the last tied entry: an entry's key is the winner exactly when
   * it holds the largest number and every later entry holds less.
   */
  lemma WinnerIsLastMaximum(r: Record, i: nat)
    requires KeysDistinct(r) && i < |r|
    ensures r[i].key == GetWinner(r) <==> IsTop(r, r[i].value) && forall j | i < j < |r| :: r[j].value < r[i].value
  {
    var e := Reduce(r);
    var w :| 0 <= w < |r| && r[w] == e && forall j | w < j < |r| :: r[j].value < e.value;
    if r[i].key == GetWinner(r) {
      assert i == w;
    }
    if IsTop(r, r[i].value) && forall j | i < j < |r| :: r[j].value < r[i].value {
      assert i == w;
    }
  }

  /** `names[lang]`, where a missing translation reads as the empty string (both are falsy). */
  function NameIn(names: map<string, string>, lang: string): string {
    if lang in names then names[lang] else ""
  }

  /**
   * `family.find(o => o.id === id)?.name[lang] || ...?.name['en'] || id`:
   * the outcome's name in `lang`, else its English name, else the id itself.
   */
  function DisplayName(family: seq<Outcome>, id: string, lang: string): (shown: string)
    ensures FindOutcome(family, id).None? ==> shown == id
    ensures FindOutcome(family, id).Some? ==>
      var names := family[FindOutcome(family, id).value].name;
      shown == if NameIn(names, lang) != "" then names[lang]
               else if NameIn(names, "en") != "" then names["en"]
               else id
    ensures id !in IdSet(family) ==> shown == id
    ensures id != "" ==> shown != ""
  {
    match FindOutcome(family, id)
    case None => id
    case Some(k) =>
      var names := family[k].name;
      if NameIn(names, lang) != "" then NameIn(names, lang)
      else if NameIn(names, "en") != "" then NameIn(names, "en")
      else id
  }

  /** The three names the result screen shows. */
  datatype Winners = Winners(race: string, characterClass: string, background: string)

  function ResultNames(s: Scores, d: DndData, lang: string): (w: Winners)
    requires |s.races| > 0 && |s.classes| > 0 && |s.backgrounds| > 0
    ensures GetWinner(s.races) !in IdSet(d.races) ==> w.race == GetWinner(s.races)
    ensures GetWinner(s.classes) !in IdSet(d.classes) ==> w.characterClass == GetWinner(s.classes)
    ensures GetWinner(s.backgrounds) !in IdSet(d.backgrounds) ==> w.background == GetWinner(s.backgrounds)
    ensures GetWinner(s.races) != "" ==> w.race != ""
    ensures GetWinner(s.classes) != "" ==> w.characterClass != ""
    ensures GetWinner(s.backgrounds) != "" ==> w.background != ""
  {
    Winners(DisplayName(d.races, GetWinner(s.races), lang),
            DisplayName(d.classes, GetWinner(s.classes), lang),
            DisplayName(d.backgrounds, GetWinner(s.backgrounds), lang))
  }
}
