/**
 * The results table: rows of publics with checkboxes, a header checkbox
 * whose `selectAll` state an effect recomputes from the lengths, and a
 * footer with the count and totals.  The selection belongs to the page
 * and reaches the table through its props; it is a field here that the
 * handlers rewrite, standing for the page's state after the callback.
 */
module PublicResultsTable {
  import Seqs
  import Selection
  import opened PublicSelectorButton

  class ResultsTable {
    /** The publics listed. */
    const publics: seq<Public>
    /** The page's selection. */
    var selected: seq<Public>
    /** The header checkbox state. */
    var selectAll: bool

    constructor(publics: seq<Public>, selected: seq<Public>)
      ensures this.publics == publics && this.selected == selected && !selectAll
    {
      this.publics := publics;
      this.selected := selected;
      selectAll := false;
    }

    /** The effect on the selection and the list: the header is checked when the lengths agree. */
    method SyncSelectAll()
      modifies this
      ensures selectAll <==> |selected| == |publics|
      ensures selected == old(selected)
    {
      selectAll := |selected| == |publics|;
    }

    /** `toggleSelectAll`: emit nothing or every listed public, then flip the header. */
    method ToggleSelectAll()
      modifies this
      ensures selected == if old(selectAll) then [] else publics
      ensures selectAll == !old(selectAll)
      ensures old(selectAll <==> |selected| == |publics|) && publics != [] ==> (selectAll <==> |selected| == |publics|)
    {
      if selectAll {
        selected := [];
      } else {
        selected := publics;
      }
      selectAll := !selectAll;
    }

    /** `togglePublic`: a row click; the header waits for the effect. */
    method TogglePublic(pub: Public)
      modifies this
      ensures selected == Selection.Toggle(old(selected), pub, PublicId)
      ensures selectAll == old(selectAll)
    {
      if Selection.Has(selected, pub.id, PublicId) {
        selected := Selection.Without(selected, pub.id, PublicId);
      } else {
        selected := selected + [pub];
      }
    }

    /** The footer: how many publics are selected, their subscribers and their price. */
    function Footer(): (r: (nat, nat, nat))
      reads this
      ensures r.0 == |selected|
      ensures r.1 == Selection.Total(selected, Subscribers) && r.2 == Selection.Total(selected, CostPerPost)
    {
      (|selected|, Selection.Total(selected, Subscribers), Selection.Total(selected, CostPerPost))
    }
  }
}
