/**
 * The publics dialog of the filter form: a local copy of the selection,
 * edited by clicking rows and the select-all checkbox and handed to the
 * form on submit, plus the totals of the local selection.
 */
module PublicSelectorButton {
  import Seqs
  import Selection
  import Wrappers
  import Text

  datatype Public = Public(id: string, name: string, subscribers: nat, monthlyReach: nat,
                           costPerPost: nat, avatar: string)

  function PublicId(p: Public): string
  {
    p.id
  }

  function Subscribers(p: Public): nat
  {
    p.subscribers
  }

  function CostPerPost(p: Public): nat
  {
    p.costPerPost
  }

  /** The publics the dialog lists. */
  const Catalogue: seq<Public> := [
    Public("1", "Это Казахстан Детка", 140000, 180000, 80000, "/next.svg"),
    Public("2", "Региональные Казахстан СМИ", 201000, 450000, 110000, "/next.svg"),
    Public("3", "Усть-Каменогорск/Oskemen", 229000, 480000, 135000, "/next.svg"),
    Public("4", "ШЫМКЕНТ / СЕМЕЙ 18", 182000, 360000, 75000, "/next.svg"),
    Public("5", "ГОРОД F – ЭТО СЕМЕЙТВ", 102000, 210000, 45000, "/next.svg"),
    Public("6", "Весь Казахстан", 104000, 220000, 50000, "/next.svg"),
    Public("7", "Шымкент: Новости/Работа/Объявления", 182000, 330000, 75000, "/next.svg"),
    Public("8", "Региональные Мероприятия", 104000, 180000, 45000, "/next.svg")]

  lemma CatalogueIdsDistinct()
    ensures Seqs.KeysDistinct(Catalogue, PublicId)
  {
  }

  /** The selection drawn from the catalogue, without repeated ids. */
  predicate FromCatalogue(sel: seq<Public>)
  {
    Seqs.KeysDistinct(sel, PublicId) && Selection.Ids(sel, PublicId) <= Selection.Ids(Catalogue, PublicId)
  }

  const Placeholder := "Выбор пабликов"

  /** The trigger shows the form's selection (not the local copy): the placeholder or the count. */
  function Trigger(selectedPublics: seq<Public>): (r: string)
    ensures selectedPublics == [] <==> r == Placeholder
    ensures selectedPublics != [] ==>
      Text.StartsWith(r, Selection.CountPrefix) && Text.ParseInt(r[|Selection.CountPrefix|..]) == Wrappers.Some(|selectedPublics|)
  {
    assert Placeholder[4] != Selection.CountPrefix[4];
    Selection.TriggerLabel(|selectedPublics|, Placeholder)
  }

  class SelectorDialog {
    var isOpen: bool
    /** The `localSelected` state. */
    var localSelected: seq<Public>
    /** The selections handed to `onSelectPublics`, oldest first. */
    var submitted: seq<seq<Public>>

    predicate Valid()
      reads this
    {
      FromCatalogue(localSelected)
    }

    /** The local copy starts as the form's selection, with the dialog closed. */
    constructor(selectedPublics: seq<Public>)
      requires FromCatalogue(selectedPublics)
      ensures Valid()
      ensures !isOpen && localSelected == selectedPublics && submitted == []
    {
      isOpen := false;
      localSelected := selectedPublics;
      submitted := [];
    }

    /** The header checkbox: checked when as many publics are selected as listed. */
    function AllChecked(): (r: bool)
      requires Valid()
      reads this
      ensures r <==> Selection.Ids(localSelected, PublicId) == Selection.Ids(Catalogue, PublicId)
    {
      CatalogueIdsDistinct();
      Selection.SameLengthIsEverything(localSelected, Catalogue, PublicId);
      |localSelected| == |Catalogue|
    }

    /** `handleSelectAll`: clear a full selection, otherwise select the whole catalogue. */
    method SelectAll()
      requires Valid()
      modifies this
      ensures Valid()
      ensures old(AllChecked()) ==> localSelected == []
      ensures !old(AllChecked()) ==> localSelected == Catalogue
      ensures AllChecked() <==> !old(AllChecked())
      ensures isOpen == old(isOpen) && submitted == old(submitted)
    {
      CatalogueIdsDistinct();
      if |localSelected| == |Catalogue| {
        localSelected := [];
      } else {
        localSelected := Catalogue;
      }
    }

    /** `togglePublic` for a row of the catalogue. */
    method TogglePublic(pub: Public)
      requires Valid() && pub in Catalogue
      modifies this
      ensures Valid()
      ensures localSelected == Selection.Toggle(old(localSelected), pub, PublicId)
      ensures isOpen == old(isOpen) && submitted == old(submitted)
    {
      Selection.ToggleKeepsDistinct(localSelected, pub, PublicId);
      assert pub.id in Selection.Ids(Catalogue, PublicId) by {
        var i :| 0 <= i < |Catalogue| && Catalogue[i] == pub;
      }
      if Selection.Has(localSelected, pub.id, PublicId) {
        localSelected := Selection.Without(localSelected, pub.id, PublicId);
      } else {
        localSelected := localSelected + [pub];
      }
    }

    /** `handleSubmit`: hand the local selection to the form and close. */
    method Submit()
      modifies this
      ensures submitted == old(submitted) + [old(localSelected)]
      ensures !isOpen && localSelected == old(localSelected)
    {
      submitted := submitted + [localSelected];
      isOpen := false;
    }

    /** The footer totals of the local selection. */
    function TotalSubscribers(): nat
      reads this
    {
      Selection.Total(localSelected, Subscribers)
    }

    function TotalCost(): nat
      reads this
    {
      Selection.Total(localSelected, CostPerPost)
    }
  }

  /** Selecting the whole catalogue totals its subscribers and prices. */
  lemma CatalogueTotals()
    ensures Selection.Total(Catalogue, Subscribers) == 1244000
    ensures Selection.Total(Catalogue, CostPerPost) == 615000
  {
    assert Catalogue[1..][1..][1..][1..][1..][1..][1..][1..] == [];
  }
}
