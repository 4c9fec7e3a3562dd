/**
 * The collection tree: `collections.parent_id` read as a reference to the parent.
 * The column is no foreign key and nothing in the store forbids a cycle,
 * so acyclicity is stated explicitly: a table is acyclic when some rank
 * puts every parent strictly below its children.  Walking up from a row
 * (the ancestor chain) and "every row below a collection" (its subtree)
 * are defined here, with the facts the repository's recursive delete and
 * cycle check rely on.
 */
module CollectionTree {
  import opened Wrappers
  import opened Schema
  import Seqs

  /** Every row is ranked, and a ranked parent ranks strictly below its child. */
  ghost predicate Ranked(cols: seq<Collection>, rank: map<Id, nat>)
  {
    && (forall c :: c in cols ==> c.id in rank)
    && (forall c :: c in cols && c.parentId.Some? && c.parentId.value in rank ==>
          rank[c.parentId.value] < rank[c.id])
  }

  ghost predicate Acyclic(cols: seq<Collection>)
  {
    exists rank :: Ranked(cols, rank)
  }

  ghost function SomeRank(cols: seq<Collection>): (rank: map<Id, nat>)
    requires Acyclic(cols)
    ensures Ranked(cols, rank)
  {
    var rank :| Ranked(cols, rank); rank
  }

  /** The row with id `id`, as `getById` finds it. */
  function Find(cols: seq<Collection>, id: Id): (r: Option<Collection>)
    ensures r.Some? ==> r.value in cols && r.value.id == id
    ensures r.None? <==> forall c :: c in cols ==> c.id != id
  {
    Seqs.FindByKey(cols, CollectionKey, id)
  }

  /**
   * The parent ids met walking up from `row`: its parent id, then the
   * parent id of that row, and so on, until a row without parent or a
   * parent id that names no row.
   */
  function AncestorsFrom(cols: seq<Collection>, row: Option<Collection>): seq<Id>
    requires Acyclic(cols)
    requires row.Some? ==> row.value in cols
    decreases if row.Some? then SomeRank(cols)[row.value.id] + 1 else 0
  {
    if row.None? || row.value.parentId.None? then []
    else [row.value.parentId.value] + AncestorsFrom(cols, Find(cols, row.value.parentId.value))
  }

  /** The ancestor ids of collection `id` (none when there is no such row). */
  function Ancestors(cols: seq<Collection>, id: Id): seq<Id>
    requires Acyclic(cols)
  {
    AncestorsFrom(cols, Find(cols, id))
  }

  /** One step up the chain: the parent id, then the chain from the parent's row, which ranks lower. */
  lemma StepUp(cols: seq<Collection>, c: Collection)
    requires Acyclic(cols) && c in cols && c.parentId.Some?
    ensures AncestorsFrom(cols, Some(c)) == [c.parentId.value] + AncestorsFrom(cols, Find(cols, c.parentId.value))
    ensures Find(cols, c.parentId.value).Some? ==>
      SomeRank(cols)[Find(cols, c.parentId.value).value.id] < SomeRank(cols)[c.id]
  {
  }

  /** Every ranked ancestor ranks strictly below the row. */
  lemma {:induction false} AncestorsBelow(cols: seq<Collection>, rank: map<Id, nat>, c: Collection)
    requires Ranked(cols, rank) && c in cols
    ensures Acyclic(cols)
    ensures forall a :: a in AncestorsFrom(cols, Some(c)) && a in rank ==> rank[a] < rank[c.id]
    decreases rank[c.id]
  {
    if c.parentId.Some? {
      var next := Find(cols, c.parentId.value);
      if next.Some? {
        AncestorsBelow(cols, rank, next.value);
      }
    }
  }

  /** A row that is its own parent makes the table cyclic. */
  lemma SelfParentIsCycle(cols: seq<Collection>, c: Collection)
    requires c in cols && c.parentId == Some(c.id)
    ensures !Acyclic(cols)
  {
  }

  /** An acyclic row is never its own ancestor. */
  lemma NotOwnAncestor(cols: seq<Collection>, c: Collection)
    requires Acyclic(cols) && c in cols
    ensures c.id !in AncestorsFrom(cols, Some(c))
  {
    AncestorsBelow(cols, SomeRank(cols), c);
  }

  /** If `d` is an ancestor of `c`, every ancestor of `d` is an ancestor of `c`. */
  lemma {:induction false} AncestorsThrough(cols: seq<Collection>, c: Collection, d: Collection)
    requires Acyclic(cols) && Seqs.KeysDistinct(cols, CollectionKey)
    requires c in cols && d in cols && d.id in AncestorsFrom(cols, Some(c))
    ensures forall a :: a in AncestorsFrom(cols, Some(d)) ==> a in AncestorsFrom(cols, Some(c))
    decreases SomeRank(cols)[c.id]
  {
    var p := c.parentId.value;
    var next := Find(cols, p);
    if p == d.id {
      Seqs.FindByKeyUnique(cols, CollectionKey, d);
    } else {
      AncestorsThrough(cols, next.value, d);
    }
  }

  /** Walking up from `c` to an ancestor `id`, the chain passes through a child of `id`. */
  lemma {:induction false} ChildOnPath(cols: seq<Collection>, c: Collection, id: Id)
    requires Acyclic(cols) && c in cols
    requires id in AncestorsFrom(cols, Some(c))
    ensures exists ch :: ch in cols && ch.parentId == Some(id)
              && (ch == c || ch.id in AncestorsFrom(cols, Some(c)))
    decreases SomeRank(cols)[c.id]
  {
    if c.parentId != Some(id) {
      var next := Find(cols, c.parentId.value);
      ChildOnPath(cols, next.value, id);
      var ch :| ch in cols && ch.parentId == Some(id)
                && (ch == next.value || ch.id in AncestorsFrom(cols, Some(next.value)));
      assert ch.id in AncestorsFrom(cols, Some(c));
    }
  }

  /** The ids of collection `id` and of every row that has `id` among its ancestors. */
  ghost function Subtree(cols: seq<Collection>, id: Id): set<Id>
    requires Acyclic(cols)
  {
    {id} + set c | c in cols && id in AncestorsFrom(cols, Some(c)) :: c.id
  }

  /** `d` holds, with any id, every row below it. */
  ghost predicate DownClosed(cols: seq<Collection>, d: set<Id>)
    requires Acyclic(cols)
  {
    forall c, a :: c in cols && a in AncestorsFrom(cols, Some(c)) && a in d ==> c.id in d
  }

  lemma SubtreeDownClosed(cols: seq<Collection>, id: Id)
    requires Acyclic(cols) && Seqs.KeysDistinct(cols, CollectionKey)
    ensures DownClosed(cols, Subtree(cols, id))
  {
    var s := Subtree(cols, id);
    forall c, a | c in cols && a in AncestorsFrom(cols, Some(c)) && a in s ensures c.id in s {
      if a != id {
        var d :| d in cols && id in AncestorsFrom(cols, Some(d)) && d.id == a;
        AncestorsThrough(cols, c, d);
      }
    }
  }

  /** The subtree of a child of `id` lies within the subtree of `id`. */
  lemma ChildSubtreeWithin(cols: seq<Collection>, id: Id, ch: Collection)
    requires Acyclic(cols) && Seqs.KeysDistinct(cols, CollectionKey)
    requires ch in cols && ch.parentId == Some(id)
    ensures Subtree(cols, ch.id) <= Subtree(cols, id)
  {
    assert id in AncestorsFrom(cols, Some(ch));
    forall c | c in cols && ch.id in AncestorsFrom(cols, Some(c)) ensures id in AncestorsFrom(cols, Some(c)) {
      AncestorsThrough(cols, c, ch);
    }
  }

  /** Every row below `id` is in the subtree of one of the children of `id`. */
  lemma SubtreeUnderChildren(cols: seq<Collection>, id: Id, children: seq<Collection>)
    requires Acyclic(cols) && Seqs.KeysDistinct(cols, CollectionKey)
    requires forall c :: c in children <==> c in cols && c.parentId == Some(id)
    ensures forall x :: x in Subtree(cols, id) && x != id ==>
      exists k :: 0 <= k < |children| && x in Subtree(cols, children[k].id)
  {
    forall x | x in Subtree(cols, id) && x != id
      ensures exists k :: 0 <= k < |children| && x in Subtree(cols, children[k].id)
    {
      var c :| c in cols && id in AncestorsFrom(cols, Some(c)) && c.id == x;
      ChildOnPath(cols, c, id);
      var ch :| ch in cols && ch.parentId == Some(id) && (ch == c || ch.id in AncestorsFrom(cols, Some(c)));
      var k :| 0 <= k < |children| && children[k] == ch;
      assert x in Subtree(cols, children[k].id);
    }
  }

  /**
   * Removing a down-closed set of rows leaves the ancestor chain of every
   * remaining row as it was.
   */
  lemma {:induction false} AncestorsAfterRemoval(cols: seq<Collection>, rest: seq<Collection>, d: set<Id>, c: Collection)
    requires Acyclic(cols) && Seqs.KeysDistinct(rest, CollectionKey)
    requires forall x :: x in rest <==> x in cols && x.id !in d
    requires DownClosed(cols, d)
    requires c in rest
    ensures Ranked(rest, SomeRank(cols)) && Acyclic(rest)
    ensures AncestorsFrom(rest, Some(c)) == AncestorsFrom(cols, Some(c))
    decreases SomeRank(cols)[c.id]
  {
    assert Ranked(rest, SomeRank(cols));
    if c.parentId.Some? {
      var p := c.parentId.value;
      var before := Find(cols, p);
      if before.Some? {
        assert p in AncestorsFrom(cols, Some(c));
        Seqs.FindByKeyUnique(rest, CollectionKey, before.value);
        AncestorsAfterRemoval(cols, rest, d, before.value);
      }
    }
  }

  /** After removing a down-closed set, a subtree is what remains of the original one. */
  lemma SubtreeAfterRemoval(cols: seq<Collection>, rest: seq<Collection>, d: set<Id>, id: Id)
    requires Acyclic(cols) && Seqs.KeysDistinct(rest, CollectionKey)
    requires forall x :: x in rest <==> x in cols && x.id !in d
    requires DownClosed(cols, d)
    ensures Acyclic(rest)
    ensures d + Subtree(rest, id) == d + Subtree(cols, id)
  {
    assert Ranked(rest, SomeRank(cols));
    forall c | c in rest ensures AncestorsFrom(rest, Some(c)) == AncestorsFrom(cols, Some(c)) {
      AncestorsAfterRemoval(cols, rest, d, c);
    }
  }

  lemma DownClosedUnion(cols: seq<Collection>, a: set<Id>, b: set<Id>)
    requires Acyclic(cols) && DownClosed(cols, a) && DownClosed(cols, b)
    ensures DownClosed(cols, a + b)
  {
  }

  // ---------------------------------------------------------------------------
  // A bound on the ranks, for recursion that walks down the tree

  ghost function MaxOf(s: set<nat>): (r: nat)
    ensures forall v :: v in s ==> v <= r
    decreases |s|
  {
    if s == {} then 0
    else
      var v :| v in s;
      var rest := MaxOf(s - {v});
      assert forall w :: w in s ==> w == v || w in s - {v};
      if v <= rest then rest else v
  }

  /** Strictly smaller for a ranked child than for its parent. */
  ghost function Height(rank: map<Id, nat>, id: Id): nat
  {
    var top := MaxOf(rank.Values);
    assert id in rank ==> rank[id] in rank.Values;
    if id in rank then top - rank[id] else top + 1
  }

  lemma HeightOfChild(cols: seq<Collection>, rank: map<Id, nat>, id: Id, child: Collection)
    requires Ranked(cols, rank) && child in cols && child.parentId == Some(id)
    ensures Height(rank, child.id) < Height(rank, id)
  {
    assert rank[child.id] in rank.Values;
    if id in rank {
      assert rank[id] in rank.Values;
    }
  }

  // ---------------------------------------------------------------------------
  // Changing one row's parent

  /** Every row with id `id` gets parent `parent` and update time `now`. */
  function Reparented(cols: seq<Collection>, id: Id, parent: Option<Id>, now: Time): (r: seq<Collection>)
    ensures |r| == |cols|
    ensures forall i :: 0 <= i < |cols| ==>
      r[i] == if cols[i].id == id then cols[i].(parentId := parent, updatedAt := now) else cols[i]
  {
    Seqs.MapWhere(cols, (c: Collection) => c.id == id, (c: Collection) => c.(parentId := parent, updatedAt := now))
  }

  /** Below `x` exactly when the parent is `x` or below it. */
  lemma SubtreeStep(cols: seq<Collection>, x: Id, c: Collection)
    requires Acyclic(cols) && Seqs.KeysDistinct(cols, CollectionKey)
    requires c in cols && c.id != x && c.parentId.Some?
    ensures c.id in Subtree(cols, x) <==> c.parentId.value in Subtree(cols, x)
  {
    var q := c.parentId.value;
    var s := Subtree(cols, x);
    assert AncestorsFrom(cols, Some(c)) == [q] + AncestorsFrom(cols, Find(cols, q));
    if c.id in s {
      var c' :| c' in cols && x in AncestorsFrom(cols, Some(c')) && c'.id == c.id;
      Seqs.KeyDetermines(cols, CollectionKey, c, c');
      if q != x {
        var cq := Find(cols, q).value;
        assert cq.id in s;
      }
    }
    if q in s {
      if q != x {
        var cq :| cq in cols && x in AncestorsFrom(cols, Some(cq)) && cq.id == q;
        Seqs.FindByKeyUnique(cols, CollectionKey, cq);
      }
      assert x in AncestorsFrom(cols, Some(c));
    }
  }

  /**
   * Giving `x` a parent that is neither `x` nor below `x` keeps the table
   * acyclic: the subtree of `x` is re-ranked to sit above the new parent.
   */
  lemma ReparentKeepsAcyclic(cols: seq<Collection>, x: Id, p: Option<Id>, now: Time)
    requires Acyclic(cols) && Seqs.KeysDistinct(cols, CollectionKey)
    requires p.Some? ==> p.value != x && x !in Ancestors(cols, p.value)
    ensures Acyclic(Reparented(cols, x, p, now))
  {
    var rank := SomeRank(cols);
    var r := Reparented(cols, x, p, now);
    if Find(cols, x).None? || p.None? || p.value !in rank {
      forall c | c in r
        ensures c.id in rank
        ensures c.parentId.Some? && c.parentId.value in rank ==> rank[c.parentId.value] < rank[c.id]
      {
        var i :| 0 <= i < |r| && r[i] == c;
        assert cols[i] in cols;
      }
      assert Ranked(r, rank);
    } else {
      var s := Subtree(cols, x);
      var pv := p.value;
      assert x in rank by {
        assert Find(cols, x).value in cols;
      }
      SubtreeRanksAbove(cols, rank, x);
      assert pv !in s by {
        if pv in s {
          var cp :| cp in cols && x in AncestorsFrom(cols, Some(cp)) && cp.id == pv;
          Seqs.FindByKeyUnique(cols, CollectionKey, cp);
        }
      }
      ReRanked(cols, rank, x, pv, now);
    }
  }

  /** Every ranked row below `x` has at least `x`'s rank. */
  lemma SubtreeRanksAbove(cols: seq<Collection>, rank: map<Id, nat>, x: Id)
    requires Acyclic(cols) && Ranked(cols, rank) && x in rank
    ensures forall k :: k in rank && k in Subtree(cols, x) ==> rank[k] >= rank[x]
  {
    forall k | k in rank && k in Subtree(cols, x) ensures rank[k] >= rank[x] {
      if k != x {
        var c :| c in cols && x in AncestorsFrom(cols, Some(c)) && c.id == k;
        AncestorsBelow(cols, rank, c);
      }
    }
  }

  /** Lifting the subtree of `x` to sit just above its new parent `pv` ranks the re-parented table. */
  lemma ReRanked(cols: seq<Collection>, rank: map<Id, nat>, x: Id, pv: Id, now: Time)
    requires Acyclic(cols) && Seqs.KeysDistinct(cols, CollectionKey) && Ranked(cols, rank)
    requires x in rank && pv in rank && pv !in Subtree(cols, x)
    requires forall k :: k in rank && k in Subtree(cols, x) ==> rank[k] >= rank[x]
    ensures Acyclic(Reparented(cols, x, Some(pv), now))
  {
    var s := Subtree(cols, x);
    var r := Reparented(cols, x, Some(pv), now);
    var rank' := map k | k in rank :: if k in s then rank[k] - rank[x] + rank[pv] + 1 else rank[k];
    forall c | c in r
      ensures c.id in rank'
      ensures c.parentId.Some? && c.parentId.value in rank' ==> rank'[c.parentId.value] < rank'[c.id]
    {
      var i :| 0 <= i < |r| && r[i] == c;
      var old_ := cols[i];
      assert old_ in cols;
      if old_.id != x && old_.parentId.Some? && old_.parentId.value in rank {
        SubtreeStep(cols, x, old_);
      }
    }
    assert Ranked(r, rank');
  }

  /** Appending a row whose id no row uses, as id or as parent, keeps the table acyclic. */
  lemma AppendKeepsAcyclic(cols: seq<Collection>, row: Collection)
    requires Acyclic(cols)
    requires forall c :: c in cols ==> c.id != row.id && c.parentId != Some(row.id)
    requires row.parentId != Some(row.id)
    ensures Acyclic(cols + [row])
  {
    var rank := SomeRank(cols);
    var top := if row.parentId.Some? && row.parentId.value in rank then rank[row.parentId.value] + 1 else 0;
    var rank' := rank[row.id := top];
    assert Ranked(cols + [row], rank');
  }
}
