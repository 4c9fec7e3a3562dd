/**
 * The publics selector page: three subscriber-size categories that are
 * switched on and off, and two free-text number fields (followers and
 * placement cost) whose text is parsed back into the page's state.
 */
module PublicSelector {
  import opened Wrappers
  import Seqs
  import Text
  import CostInput

  datatype Category = Category(min: nat, max: nat, active: bool)

  /** The categories the page starts with: only small publics (5000 to 100000 subscribers) are active. */
  const InitialCategories: map<string, Category> := map[
    "small" := Category(5000, 100000, true),
    "medium" := Category(100000, 500000, false),
    "large" := Category(500000, 3000000, false)]

  const InitialFollowers: int := 2568125
  const InitialCost: nat := 580000

  lemma OnlySmallActiveInitially()
    ensures forall k :: k in InitialCategories && InitialCategories[k].active <==> k == "small"
  {
    assert InitialCategories.Keys == {"small", "medium", "large"};
  }

  /** `toggleCategory`: the entry's `active` flag flips; its bounds and every other entry stay. */
  function Toggled(categories: map<string, Category>, key: string): (r: map<string, Category>)
    requires key in categories
    ensures r.Keys == categories.Keys
    ensures r[key].active == !categories[key].active
    ensures r[key].min == categories[key].min && r[key].max == categories[key].max
    ensures forall k :: k in categories && k != key ==> r[k] == categories[k]
  {
    categories[key := categories[key].(active := !categories[key].active)]
  }

  /** Toggling a category twice restores the categories. */
  lemma ToggledTwice(categories: map<string, Category>, key: string)
    requires key in categories
    ensures Toggled(Toggled(categories, key), key) == categories
  {
    var r := Toggled(Toggled(categories, key), key);
    assert r.Keys == categories.Keys;
    assert forall k :: k in r ==> r[k] == categories[k];
  }

  function WithoutCommas(s: string): (r: string)
    ensures ',' !in r
    ensures forall c :: c in r <==> c in s && c != ','
  {
    Seqs.Filter(s, c => c != ',')
  }

  /**
   * The followers field: `parseInt(text without commas) || 0`.  Leading
   * spaces, a sign and a hexadecimal prefix are honoured as `parseInt`
   * does, so the value can be negative.
   */
  function FollowersFromText(text: string): (r: int)
    ensures Text.ParseInt(WithoutCommas(text)).None? ==> r == 0
    ensures Text.ParseInt(WithoutCommas(text)).Some? ==> r == Text.ParseInt(WithoutCommas(text)).value
  {
    match Text.ParseInt(WithoutCommas(text))
    case None => 0
    case Some(v) => v
  }

  /** A count written with its digits grouped by commas reads back as that count. */
  lemma FollowersRoundTrip(text: string, n: nat)
    requires WithoutCommas(text) == Text.NatToString(n)
    ensures FollowersFromText(text) == n
  {
    Text.ParseIntNatToString(n);
  }

  /**
   * `toLocaleString()` groups digits as the browser's locale does; under a
   * Russian locale the separator is a no-break space, which the field does
   * not strip, so a grouped count reads back as its leading group alone
   * (1 234 as 1).
   */
  lemma NoBreakSpaceGroupingReadsLeadingGroup(lead: string, rest: string)
    requires lead != [] && Text.AllDigitsIn(lead, 10)
    ensures FollowersFromText(lead + ['\U{00A0}'] + rest) == Text.ValueIn(lead, 10)
  {
    var nbsp := ['\U{00A0}'];
    var text := lead + nbsp + rest;
    assert WithoutCommas(text) == lead + (nbsp + WithoutCommas(rest)) by {
      var p := c => c != ',';
      Seqs.FilterConcat(lead + nbsp, rest, p);
      Seqs.FilterConcat(lead, nbsp, p);
      CommaFree(lead);
      CommaFree(nbsp);
    }
    assert Text.ParseInt(WithoutCommas(text)) == Some(Text.ValueIn(lead, 10)) by {
      Text.ParseIntOfDigitsThen(lead, nbsp + WithoutCommas(rest));
    }
  }

  lemma CommaFree(s: string)
    requires ',' !in s
    ensures WithoutCommas(s) == s
  {
    Seqs.FilterKeepsAll(s, c => c != ',');
  }

  /** The cost field: `parseInt(digits of text) || 0`, the cost input's reading of the digits. */
  function CostFromText(text: string): (r: nat)
    ensures r == match Text.ParseInt(Text.KeepDigits(text)) case None => 0 case Some(v) => v
  {
    CostInput.Entered(Text.KeepDigits(text))
  }

  const CurrencySuffix := " тенге"

  /** The field shows the cost followed by the currency; reading that back gives the cost. */
  lemma CostRoundTrip(n: nat)
    ensures CostFromText(Text.NatToString(n) + CurrencySuffix) == n
  {
    var s := Text.NatToString(n);
    Seqs.FilterConcat(s, CurrencySuffix, Text.IsDigit);
    Text.KeepDigitsOfDigits(s);
    assert forall i :: 0 <= i < |CurrencySuffix| ==> !Text.IsDigit(CurrencySuffix[i]);
    Seqs.FilterDropsAll(CurrencySuffix, Text.IsDigit);
    assert Text.KeepDigits(s + CurrencySuffix) == s;
    Text.ParseIntNatToString(n);
  }

  class SelectorPage {
    var categories: map<string, Category>
    var followers: int
    var cost: nat

    constructor()
      ensures categories == InitialCategories && followers == InitialFollowers && cost == InitialCost
    {
      categories := InitialCategories;
      followers := InitialFollowers;
      cost := InitialCost;
    }

    /** A category card's click. */
    method ToggleCategory(key: string)
      requires key in categories
      modifies this
      ensures categories == Toggled(old(categories), key)
      ensures followers == old(followers) && cost == old(cost)
    {
      categories := categories[key := categories[key].(active := !categories[key].active)];
    }

    /** The followers input's `onChange`. */
    method FollowersChanged(text: string)
      modifies this
      ensures followers == FollowersFromText(text)
      ensures categories == old(categories) && cost == old(cost)
    {
      var parsed := Text.ParseInt(WithoutCommas(text));
      followers := if parsed.Some? then parsed.value else 0;
    }

    /** The cost input's `onChange`. */
    method CostChanged(text: string)
      modifies this
      ensures cost == CostFromText(text)
      ensures categories == old(categories) && followers == old(followers)
    {
      var parsed := Text.ParseInt(Text.KeepDigits(text));
      cost := if parsed.Some? then parsed.value else 0;
    }
  }
}
