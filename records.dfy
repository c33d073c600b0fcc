/**
 * JavaScript objects used as string-keyed dictionaries (`Record<string, number>`).
 *
 * An object is an ordered list of entries whose keys are pairwise distinct. The
 * order is insertion order, the order in which `Object.entries` and
 * `Object.values` report the entries; assigning to an existing key keeps its
 * place, assigning to a new key appends it.
 */
module Records {
  import opened Wrappers

  datatype Entry = Entry(key: string, value: int)

  type Record = seq<Entry>

  /** Every JavaScript object has pairwise-distinct keys. */
  ghost predicate KeysDistinct(r: Record) {
    forall i, j | 0 <= i < j < |r| :: r[i].key != r[j].key
  }

  function Keys(r: Record): set<string> {
    set i | 0 <= i < |r| :: r[i].key
  }

  /** `Object.values(r)`. */
  function Values(r: Record): (vs: seq<int>)
    ensures |vs| == |r|
    ensures forall i | 0 <= i < |r| :: vs[i] == r[i].value
  {
    seq(|r|, i requires 0 <= i < |r| => r[i].value)
  }

  /** The position of key `k` in `r`, if it has one. */
  function IndexOf(r: Record, k: string): (o: Option<nat>)
    ensures o.Some? ==> o.value < |r| && r[o.value].key == k
    ensures o.Some? ==> forall j | 0 <= j < o.value :: r[j].key != k
    ensures o.None? ==> forall j | 0 <= j < |r| :: r[j].key != k
  {
    if |r| == 0 then None
    else if r[0].key == k then Some(0)
    else match IndexOf(r[1..], k)
      case None => None
      case Some(i) => Some(i + 1)
  }

  /** `r[k] || 0`: the number stored under `k`, or 0 when `k` is absent. */
  function Get(r: Record, k: string): (v: int)
    ensures k !in Keys(r) ==> v == 0
  {
    match IndexOf(r, k)
    case None => 0
    case Some(i) => r[i].value
  }

  /** With distinct keys, reading an entry's key gives that entry's number. */
  lemma GetAt(r: Record, i: nat)
    requires KeysDistinct(r) && i < |r|
    ensures Get(r, r[i].key) == r[i].value
  {
  }

  /** The assignment `r[k] = v`. */
  function Put(r: Record, k: string, v: int): (r': Record)
    ensures Keys(r') == Keys(r) + {k}
    ensures KeysDistinct(r) ==> KeysDistinct(r')
  {
    match IndexOf(r, k)
    case None =>
      var r' := r + [Entry(k, v)];
      assert forall x | x in Keys(r') :: x in Keys(r) + {k} by {
        forall x | x in Keys(r') ensures x in Keys(r) + {k} {
          var j :| 0 <= j < |r'| && r'[j].key == x;
          if j < |r| { assert r[j].key == x; }
        }
      }
      assert forall x | x in Keys(r) :: x in Keys(r') by {
        forall x | x in Keys(r) ensures x in Keys(r') {
          var j :| 0 <= j < |r| && r[j].key == x;
          assert r'[j].key == x;
        }
      }
      assert r'[|r|].key == k;
      r'
    case Some(i) =>
      var r' := r[i := Entry(k, v)];
      assert forall j | 0 <= j < |r| :: r'[j].key == r[j].key;
      assert forall x | x in Keys(r') :: x in Keys(r) by {
        forall x | x in Keys(r') ensures x in Keys(r) {
          var j :| 0 <= j < |r'| && r'[j].key == x;
          assert r[j].key == x;
        }
      }
      assert forall x | x in Keys(r) :: x in Keys(r') by {
        forall x | x in Keys(r) ensures x in Keys(r') {
          var j :| 0 <= j < |r| && r[j].key == x;
          assert r'[j].key == x;
        }
      }
      r'
  }

  /** Assigning to an existing key keeps every key in its place and touches no other entry; a new key is appended. */
  lemma PutShape(r: Record, k: string, v: int)
    ensures k in Keys(r) ==> |Put(r, k, v)| == |r|
    ensures k in Keys(r) ==> forall i | 0 <= i < |r| :: Put(r, k, v)[i].key == r[i].key
    ensures k in Keys(r) ==> forall i | 0 <= i < |r| && r[i].key != k :: Put(r, k, v)[i] == r[i]
    ensures k !in Keys(r) ==> Put(r, k, v) == r + [Entry(k, v)]
  {
    if k in Keys(r) {
      assert IndexOf(r, k).Some?;
    }
  }

  /** After `r[k] = v`, reading `k` gives `v` and reading any other key gives what it gave before. */
  lemma GetAfterPut(r: Record, k: string, v: int, x: string)
    requires KeysDistinct(r)
    ensures Get(Put(r, k, v), x) == if x == k then v else Get(r, x)
  {
    var r' := Put(r, k, v);
    PutShape(r, k, v);
    if x in Keys(r') {
      var i :| 0 <= i < |r'| && r'[i].key == x;
    }
  }

  /** `Object.fromEntries(es)`: later entries overwrite earlier ones with the same key. */
  function FromEntries(es: seq<Entry>): (r: Record)
    ensures KeysDistinct(r)
    ensures Keys(r) == set i | 0 <= i < |es| :: es[i].key
  {
    if |es| == 0 then []
    else
      var init := es[..|es| - 1];
      assert (set i | 0 <= i < |es| :: es[i].key) == (set i | 0 <= i < |init| :: init[i].key) + {es[|es| - 1].key};
      Put(FromEntries(init), es[|es| - 1].key, es[|es| - 1].value)
  }

  /**
   * Reading a key of `Object.fromEntries(es)` gives the value of the last pair
   * with that key, and 0 when no pair has it.
   */
  lemma {:induction false} FromEntriesGet(es: seq<Entry>, k: string)
    ensures (forall i | 0 <= i < |es| :: es[i].key != k) ==> Get(FromEntries(es), k) == 0
    ensures forall i | 0 <= i < |es| && es[i].key == k && (forall j | i < j < |es| :: es[j].key != k) ::
      Get(FromEntries(es), k) == es[i].value
  {
    if |es| > 0 {
      var init := es[..|es| - 1];
      var last := es[|es| - 1];
      FromEntriesGet(init, k);
      GetAfterPut(FromEntries(init), last.key, last.value, k);
      assert forall i | 0 <= i < |init| :: init[i] == es[i];
    }
  }

  /** With distinct keys, `Object.fromEntries` keeps every entry, in order. */
  lemma {:induction false} FromEntriesDistinct(es: seq<Entry>)
    requires KeysDistinct(es)
    ensures FromEntries(es) == es
  {
    if |es| > 0 {
      var init := es[..|es| - 1];
      FromEntriesDistinct(init);
      assert es[|es| - 1].key !in Keys(init);
      PutShape(init, es[|es| - 1].key, es[|es| - 1].value);
      assert init + [es[|es| - 1]] == es;
    }
  }

  /** `Object.fromEntries` only stores values it was given. */
  lemma {:induction false} FromEntriesValues(es: seq<Entry>, v: int)
    requires forall i | 0 <= i < |es| :: es[i].value == v
    ensures forall i | 0 <= i < |FromEntries(es)| :: FromEntries(es)[i].value == v
  {
    if |es| > 0 {
      var init := es[..|es| - 1];
      FromEntriesValues(init, v);
      PutShape(FromEntries(init), es[|es| - 1].key, es[|es| - 1].value);
    }
  }

  /** The sum of `Object.values(r)`. */
  function Total(r: Record): int {
    if |r| == 0 then 0 else Total(r[..|r| - 1]) + r[|r| - 1].value
  }

  lemma {:induction false} TotalUpdate(r: Record, i: nat, e: Entry)
    requires i < |r|
    ensures Total(r[i := e]) == Total(r) - r[i].value + e.value
  {
    var n := |r| - 1;
    if i < n {
      TotalUpdate(r[..n], i, e);
      assert r[i := e][..n] == r[..n][i := e];
    } else {
      assert r[i := e][..n] == r[..n];
    }
  }

  /** Raising the number stored under one key by 1 raises the total by exactly 1. */
  lemma TotalIncrement(r: Record, k: string)
    ensures Total(Put(r, k, Get(r, k) + 1)) == Total(r) + 1
  {
    match IndexOf(r, k)
    case None =>
      assert (r + [Entry(k, 1)])[..|r|] == r;
    case Some(i) =>
      TotalUpdate(r, i, Entry(k, Get(r, k) + 1));
  }
}
