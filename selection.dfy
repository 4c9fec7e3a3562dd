/**
 * The multi-select pattern shared by the filter form's pickers and the
 * publics tables: an entry is selected when some selected item has its id;
 * toggling removes every item with that id or appends the entry; removing
 * drops every item with the id.  Totals add one numeric field over the
 * selection, and the trigger label shows the count.
 */
module Selection {
  import opened Wrappers
  import Seqs
  import Text

  /** The ids present in a selection. */
  function Ids<T>(sel: seq<T>, id: T -> string): set<string>
  {
    set i | 0 <= i < |sel| :: id(sel[i])
  }

  /** `sel.some(x => x.id === key)`. */
  predicate Has<T>(sel: seq<T>, key: string, id: T -> string)
  {
    exists i :: 0 <= i < |sel| && id(sel[i]) == key
  }

  lemma HasIffInIds<T>(sel: seq<T>, key: string, id: T -> string)
    ensures Has(sel, key, id) <==> key in Ids(sel, id)
  {
  }

  /** `sel.filter(x => x.id !== key)`: every item with that id goes, the rest keep their order. */
  function Without<T(!new)>(sel: seq<T>, key: string, id: T -> string): (r: seq<T>)
    ensures forall x :: x in r <==> x in sel && id(x) != key
    ensures Ids(r, id) == Ids(sel, id) - {key}
    ensures !Has(r, key, id)
  {
    var r := Seqs.Filter(sel, x => id(x) != key);
    assert forall k :: k in Ids(r, id) ==> k in Ids(sel, id) - {key} by {
      forall k | k in Ids(r, id) ensures k in Ids(sel, id) - {key} {
        var i :| 0 <= i < |r| && id(r[i]) == k;
        assert r[i] in r;
        var j :| 0 <= j < |sel| && sel[j] == r[i];
      }
    }
    assert forall k :: k in Ids(sel, id) - {key} ==> k in Ids(r, id) by {
      forall k | k in Ids(sel, id) - {key} ensures k in Ids(r, id) {
        var i :| 0 <= i < |sel| && id(sel[i]) == k;
        assert sel[i] in sel;
        var j :| 0 <= j < |r| && r[j] == sel[i];
      }
    }
    r
  }

  /** The click handler: remove the item's id if selected, otherwise append the item. */
  function Toggle<T(!new)>(sel: seq<T>, item: T, id: T -> string): (r: seq<T>)
    ensures Has(r, id(item), id) <==> !Has(sel, id(item), id)
    ensures Ids(r, id) == if Has(sel, id(item), id) then Ids(sel, id) - {id(item)} else Ids(sel, id) + {id(item)}
    ensures Has(sel, id(item), id) ==> |r| < |sel|
    ensures !Has(sel, id(item), id) ==> r == sel + [item]
  {
    if Has(sel, id(item), id) then
      var r := Without(sel, id(item), id);
      var i :| 0 <= i < |sel| && id(sel[i]) == id(item);
      assert sel[i] in sel && sel[i] !in r;
      Seqs.CountIsFilterLength(sel, x => id(x) != id(item));
      NotAllKept(sel, x => id(x) != id(item), i);
      r
    else
      var r := sel + [item];
      assert r[|sel|] == item;
      assert Ids(r, id) == Ids(sel, id) + {id(item)} by {
        forall k | k in Ids(r, id) ensures k in Ids(sel, id) + {id(item)} {
          var j :| 0 <= j < |r| && id(r[j]) == k;
          if j < |sel| { assert r[j] == sel[j]; }
        }
        forall k | k in Ids(sel, id) ensures k in Ids(r, id) {
          var j :| 0 <= j < |sel| && id(sel[j]) == k;
          assert r[j] == sel[j];
        }
      }
      r
  }

  lemma {:induction false} NotAllKept<T>(s: seq<T>, p: T -> bool, i: nat)
    requires i < |s| && !p(s[i])
    ensures Seqs.Count(s, p) < |s|
  {
    if i > 0 {
      NotAllKept(s[1..], p, i - 1);
    }
  }

  /** Toggling an unselected entry twice gives back the selection. */
  lemma ToggleTwice<T(!new)>(sel: seq<T>, item: T, id: T -> string)
    requires !Has(sel, id(item), id)
    ensures Toggle(Toggle(sel, item, id), item, id) == sel
  {
    var p := x => id(x) != id(item);
    Seqs.FilterConcat(sel, [item], p);
    Seqs.FilterKeepsAll(sel, p);
    Seqs.FilterDropsAll([item], p);
  }

  /** Removing is idempotent. */
  lemma WithoutTwice<T(!new)>(sel: seq<T>, key: string, id: T -> string)
    ensures Without(Without(sel, key, id), key, id) == Without(sel, key, id)
  {
    Seqs.FilterIdempotent(sel, x => id(x) != key);
  }

  /** Removing an id nobody has changes nothing. */
  lemma WithoutAbsent<T(!new)>(sel: seq<T>, key: string, id: T -> string)
    requires !Has(sel, key, id)
    ensures Without(sel, key, id) == sel
  {
    Seqs.FilterKeepsAll(sel, x => id(x) != key);
  }

  /** Removing keeps the ids of a selection distinct. */
  lemma WithoutKeepsDistinct<T(!new)>(sel: seq<T>, key: string, id: T -> string)
    requires Seqs.KeysDistinct(sel, id)
    ensures Seqs.KeysDistinct(Without(sel, key, id), id)
  {
    Seqs.FilterKeysDistinct(sel, x => id(x) != key, id);
  }

  /** Toggling keeps the ids of a selection distinct. */
  lemma ToggleKeepsDistinct<T(!new)>(sel: seq<T>, item: T, id: T -> string)
    requires Seqs.KeysDistinct(sel, id)
    ensures Seqs.KeysDistinct(Toggle(sel, item, id), id)
  {
    if Has(sel, id(item), id) {
      Seqs.FilterKeysDistinct(sel, x => id(x) != id(item), id);
    } else {
      var r := sel + [item];
      forall i, j | 0 <= i < j < |r| ensures id(r[i]) != id(r[j]) {
        if j == |sel| {
          assert r[i] == sel[i];
        }
      }
    }
  }

  /** With distinct ids, a selection has as many ids as items. */
  lemma {:induction false} DistinctIdsCount<T>(sel: seq<T>, id: T -> string)
    requires Seqs.KeysDistinct(sel, id)
    ensures |Ids(sel, id)| == |sel|
  {
    if sel != [] {
      IdsOfTail(sel, id);
      DistinctIdsCount(sel[1..], id);
    }
  }

  /** The ids of a non-empty selection split into the first id and the rest's ids, which do not hold it. */
  lemma IdsOfTail<T>(sel: seq<T>, id: T -> string)
    requires sel != [] && Seqs.KeysDistinct(sel, id)
    ensures Seqs.KeysDistinct(sel[1..], id)
    ensures Ids(sel, id) == {id(sel[0])} + Ids(sel[1..], id)
    ensures id(sel[0]) !in Ids(sel[1..], id)
  {
    var rest := sel[1..];
    forall k | k in Ids(sel, id) ensures k in {id(sel[0])} + Ids(rest, id) {
      var j :| 0 <= j < |sel| && id(sel[j]) == k;
      if j > 0 { assert sel[j] == rest[j - 1]; }
    }
    forall k | k in Ids(rest, id) ensures k in Ids(sel, id) {
      var j :| 0 <= j < |rest| && id(rest[j]) == k;
      assert rest[j] == sel[j + 1];
    }
    forall j | 0 <= j < |rest| ensures id(rest[j]) != id(sel[0]) {
      assert rest[j] == sel[j + 1];
    }
  }

  /** A subset as large as its superset is the whole of it. */
  lemma {:induction false} FullSubset(a: set<string>, b: set<string>)
    requires a <= b && |a| == |b|
    ensures a == b
  {
    if a != b {
      var x :| x in b && x !in a;
      assert a <= b - {x};
      SubsetSize(a, b - {x});
    }
  }

  lemma {:induction false} SubsetSize(a: set<string>, b: set<string>)
    requires a <= b
    ensures |a| <= |b|
  {
    if a != {} {
      var x :| x in a;
      SubsetSize(a - {x}, b - {x});
    }
  }

  /**
   * For a duplicate-free selection drawn from a duplicate-free catalogue,
   * equal lengths (the select-all test) mean every catalogue entry is selected.
   */
  lemma SameLengthIsEverything<T>(sel: seq<T>, catalogue: seq<T>, id: T -> string)
    requires Seqs.KeysDistinct(sel, id) && Seqs.KeysDistinct(catalogue, id)
    requires Ids(sel, id) <= Ids(catalogue, id)
    ensures |sel| == |catalogue| <==> Ids(sel, id) == Ids(catalogue, id)
  {
    DistinctIdsCount(sel, id);
    DistinctIdsCount(catalogue, id);
    if |sel| == |catalogue| {
      FullSubset(Ids(sel, id), Ids(catalogue, id));
    }
  }

  // ---------------------------------------------------------------------------
  // Totals

  /** `sel.reduce((sum, x) => sum + f(x), 0)`. */
  function Total<T>(sel: seq<T>, f: T -> nat): nat
  {
    if sel == [] then 0 else f(sel[0]) + Total(sel[1..], f)
  }

  lemma {:induction false} TotalConcat<T>(a: seq<T>, b: seq<T>, f: T -> nat)
    ensures Total(a + b, f) == Total(a, f) + Total(b, f)
  {
    if a == [] {
      assert a + b == b;
    } else {
      assert (a + b)[1..] == a[1..] + b;
      TotalConcat(a[1..], b, f);
    }
  }

  /** Selecting an entry adds its value to the total; deselecting never raises it. */
  lemma ToggleTotal<T(!new)>(sel: seq<T>, item: T, id: T -> string, f: T -> nat)
    ensures !Has(sel, id(item), id) ==> Total(Toggle(sel, item, id), f) == Total(sel, f) + f(item)
    ensures Has(sel, id(item), id) ==> Total(Toggle(sel, item, id), f) <= Total(sel, f)
  {
    if Has(sel, id(item), id) {
      FilterTotal(sel, x => id(x) != id(item), f);
    } else {
      TotalConcat(sel, [item], f);
    }
  }

  lemma {:induction false} FilterTotal<T(!new)>(s: seq<T>, p: T -> bool, f: T -> nat)
    ensures Total(Seqs.Filter(s, p), f) <= Total(s, f)
  {
    if s != [] {
      FilterTotal(s[1..], p, f);
      Seqs.FilterConcat([s[0]], s[1..], p);
      assert s == [s[0]] + s[1..];
      if p(s[0]) {
        Seqs.FilterKeepsAll([s[0]], p);
      } else {
        Seqs.FilterDropsAll([s[0]], p);
      }
      TotalConcat(Seqs.Filter([s[0]], p), Seqs.Filter(s[1..], p), f);
    }
  }

  // ---------------------------------------------------------------------------
  // The trigger

  const CountPrefix := "Выбрано: "

  /** The placeholders of the region, activity and city pickers. */
  const RegionPlaceholder := "Выбрать область"
  const ActivityPlaceholder := "Выбрать вид деятельности"
  const CityPlaceholder := "Выбрать город(а)"

  /** None of the pickers' placeholders reads like a count, so each is shown exactly for an empty selection. */
  lemma PlaceholdersAreNoCounts(count: nat)
    ensures TriggerLabel(count, RegionPlaceholder) == RegionPlaceholder <==> count == 0
    ensures TriggerLabel(count, ActivityPlaceholder) == ActivityPlaceholder <==> count == 0
    ensures TriggerLabel(count, CityPlaceholder) == CityPlaceholder <==> count == 0
  {
    assert RegionPlaceholder[5] != CountPrefix[5];
    assert ActivityPlaceholder[5] != CountPrefix[5];
    assert CityPlaceholder[5] != CountPrefix[5];
  }

  /**
   * The trigger text of the region, activity and city pickers: the
   * placeholder when nothing is selected, otherwise `Выбрано: <count>`.  A
   * placeholder that does not itself start like a count is shown exactly
   * for the empty selection.
   */
  function TriggerLabel(count: nat, placeholder: string): (r: string)
    ensures count == 0 ==> r == placeholder
    ensures count > 0 ==> Text.StartsWith(r, CountPrefix) && Text.ParseInt(r[|CountPrefix|..]) == Some(count)
    ensures !Text.StartsWith(placeholder, CountPrefix) ==> (r == placeholder <==> count == 0)
  {
    if count == 0 then placeholder
    else
      Text.ParseIntNatToString(count);
      assert (CountPrefix + Text.NatToString(count))[|CountPrefix|..] == Text.NatToString(count);
      CountPrefix + Text.NatToString(count)
  }
}
