/**
 * The collections repository: a user's folders of links, nested through
 * `parent_id`, with a recursive subtree delete, a cycle check when a
 * collection is moved, and the breadcrumb path of a collection.
 */
module CollectionsRepository {
  import opened Wrappers
  import opened Schema
  import opened Store
  import opened CollectionTree
  import Seqs
  import Text

  const CycleError := "Cannot move a collection to its own descendant"
  const DefaultLimit: nat := 20

  function ByName(c: Collection): seq<int> { Text.Codes(c.name) }

  /** ORDER BY name ASC. */
  function OrderByName(rows: seq<Collection>): (r: seq<Collection>)
    ensures multiset(r) == multiset(rows)
    ensures forall c :: c in r <==> c in rows
    ensures Seqs.SortedBy(r, ByName, false)
  {
    Seqs.SortBySorted(rows, ByName, false);
    Seqs.SortBySameRows(rows, ByName, false);
    Seqs.SortBy(rows, ByName, false)
  }

  // ---------------------------------------------------------------------------
  // Queries

  /** `getRootCollections(userId)`: the user's collections without parent, by name. */
  function GetRootCollections(t: Tables, userId: Id): (r: seq<Collection>)
    ensures forall c :: c in r <==> c in t.collections && c.userId == userId && c.parentId.None?
    ensures Seqs.SortedBy(r, ByName, false)
  {
    OrderByName(Seqs.Filter(t.collections, (c: Collection) => c.userId == userId && c.parentId.None?))
  }

  /** `getAllByUserId(userId)`: all the user's collections, by name. */
  function GetAllByUserId(t: Tables, userId: Id): (r: seq<Collection>)
    ensures forall c :: c in r <==> c in t.collections && c.userId == userId
    ensures Seqs.SortedBy(r, ByName, false)
  {
    OrderByName(Seqs.Filter(t.collections, (c: Collection) => c.userId == userId))
  }

  /** `getById(id)`: the row with that id, or null. */
  function GetById(t: Tables, id: Id): (r: Option<Collection>)
    ensures r.Some? ==> r.value in t.collections && r.value.id == id
    ensures r.None? <==> forall c :: c in t.collections ==> c.id != id
  {
    Find(t.collections, id)
  }

  /** `getChildren(parentId)`: the rows whose parent is `parentId` (of any owner), by name. */
  function GetChildren(t: Tables, parentId: Id): (r: seq<Collection>)
    ensures forall c :: c in r <==> c in t.collections && c.parentId == Some(parentId)
    ensures Seqs.SortedBy(r, ByName, false)
  {
    OrderByName(Seqs.Filter(t.collections, (c: Collection) => c.parentId == Some(parentId)))
  }

  /** `search(userId, query)`: the user's collections whose name contains the query, by name. */
  function Search(t: Tables, userId: Id, query: string): (r: seq<Collection>)
    ensures forall c :: c in r <==> c in t.collections && c.userId == userId && Text.Contains(c.name, query)
    ensures Seqs.SortedBy(r, ByName, false)
  {
    OrderByName(Seqs.Filter(t.collections, (c: Collection) => c.userId == userId && Text.Contains(c.name, query)))
  }

  /** The number of link_collections rows that point at collection `id`. */
  function LinkCount(t: Tables, id: Id): (n: nat)
    ensures n <= |t.linkCollections|
    ensures n == 0 <==> forall lc :: lc in t.linkCollections ==> lc.collectionId != id
  {
    Seqs.Count(t.linkCollections, (lc: LinkCollection) => lc.collectionId == id)
  }

  datatype CollectionWithLinkCount = CollectionWithLinkCount(collection: Collection, linkCount: nat)

  /**
   * `getCollectionsWithLinkCount(userId)`: each of the user's collections,
   * by name, with the number of link_collections rows pointing at it (a
   * LEFT JOIN grouped by collection id; no row counts as zero).
   */
  function GetCollectionsWithLinkCount(t: Tables, userId: Id): (r: seq<CollectionWithLinkCount>)
    ensures |r| == |GetAllByUserId(t, userId)|
    ensures forall i :: 0 <= i < |r| ==>
      r[i].collection == GetAllByUserId(t, userId)[i] && r[i].linkCount == LinkCount(t, r[i].collection.id)
    ensures forall x :: x in r ==> x.collection in t.collections && x.collection.userId == userId
  {
    var rows := GetAllByUserId(t, userId);
    var r := Seqs.Map(rows, (c: Collection) => CollectionWithLinkCount(c, LinkCount(t, c.id)));
    assert forall x :: x in r ==> x.collection in rows;
    r
  }

  /** A link_collections row for a collection adds one to its link count and leaves the other counts alone. */
  lemma LinkCountAfterInsert(t: Tables, row: LinkCollection, id: Id)
    ensures LinkCount(t.(linkCollections := t.linkCollections + [row]), id)
            == LinkCount(t, id) + (if row.collectionId == id then 1 else 0)
  {
    Seqs.CountAppend(t.linkCollections, row, (lc: LinkCollection) => lc.collectionId == id);
  }


  function LinkByCreatedAt(l: Link): seq<int> { [l.createdAt] }

  function InCollection(collectionId: Id): LinkCollection -> bool
  {
    (lc: LinkCollection) => lc.collectionId == collectionId
  }

  function OfLink(linkId: Id): LinkCollection -> bool
  {
    (lc: LinkCollection) => lc.linkId == linkId
  }

  /** The join condition links.id = link_collections.link_id. */
  function JoinsLink(lc: LinkCollection, l: Link): bool { lc.linkId == l.id }

  function LinkOfPair(q: (LinkCollection, Link)): Link { q.1 }

  /** The links ⋈ link_collections rows of the collection, in scan order, one per join row. */
  function CollectionLinks(t: Tables, collectionId: Id): (r: seq<Link>)
    ensures forall l :: l in r <==>
      l in t.links && exists lc :: lc in t.linkCollections && lc.collectionId == collectionId && lc.linkId == l.id
  {
    var j := Seqs.Join(Seqs.Filter(t.linkCollections, InCollection(collectionId)), t.links, JoinsLink);
    var r := Seqs.Map(j, LinkOfPair);
    forall l, lc | l in t.links && lc in t.linkCollections && lc.collectionId == collectionId && lc.linkId == l.id
      ensures l in r
    {
      assert (lc, l) in j;
    }
    r
  }

  /** There is no DISTINCT: a link joined to the collection by two rows comes back twice. */
  lemma CollectionLinksRepeat(t: Tables, collectionId: Id, l: Link, a: LinkCollection, b: LinkCollection)
    requires l in t.links && a in t.linkCollections && b in t.linkCollections && a != b
    requires a.linkId == l.id && b.linkId == l.id && a.collectionId == collectionId && b.collectionId == collectionId
    ensures multiset(CollectionLinks(t, collectionId))[l] >= 2
  {
    var rowsOf := Seqs.Filter(t.linkCollections, InCollection(collectionId));
    assert CollectionLinks(t, collectionId) == Seqs.Map(Seqs.Join(rowsOf, t.links, JoinsLink), LinkOfPair);
    Seqs.JoinedRightTwice(rowsOf, t.links, JoinsLink, LinkOfPair, a, b, l);
  }

  /**
   * `getLinks(collectionId, limit = 20, offset = 0)`: a newest-first page
   * of the collection's links, as many as the limit allows after the offset.
   */
  function GetLinks(t: Tables, collectionId: Id, limit: Option<nat>, offset: Option<nat>): (r: seq<Link>)
    ensures var n := |CollectionLinks(t, collectionId)|;
      |r| == if offset.GetOr(0) >= n then 0 else Seqs.Min(limit.GetOr(DefaultLimit), n - offset.GetOr(0))
    ensures forall l :: l in r ==> l in CollectionLinks(t, collectionId)
    ensures multiset(r) <= multiset(CollectionLinks(t, collectionId))
    ensures offset.GetOr(0) == 0 && r != [] ==>
      forall l :: l in CollectionLinks(t, collectionId) && l !in r ==> r[|r| - 1].createdAt >= l.createdAt
    ensures Seqs.SortedBy(r, LinkByCreatedAt, true)
  {
    NewestLinksWindow(CollectionLinks(t, collectionId), offset.GetOr(0), limit.GetOr(DefaultLimit))
  }

  /** The newest-first window of the rows, with what it keeps of them. */
  function NewestLinksWindow(rows: seq<Link>, offset: nat, limit: nat): (r: seq<Link>)
    ensures |r| == if offset >= |rows| then 0 else Seqs.Min(limit, |rows| - offset)
    ensures forall l :: l in r ==> l in rows
    ensures multiset(r) <= multiset(rows)
    ensures offset == 0 && r != [] ==> forall l :: l in rows && l !in r ==> r[|r| - 1].createdAt >= l.createdAt
    ensures Seqs.SortedBy(r, LinkByCreatedAt, true)
  {
    var r := Seqs.SortedWindow(rows, LinkByCreatedAt, true, offset, limit);
    assert offset == 0 && r != [] ==> forall l :: l in rows && l !in r ==> r[|r| - 1].createdAt >= l.createdAt by {
      forall l | offset == 0 && r != [] && l in rows && l !in r
        ensures r[|r| - 1].createdAt >= l.createdAt
      {
        Seqs.DescendingSingle(r[|r| - 1].createdAt, l.createdAt);
      }
    }
    r
  }

  /** The join condition collections.id = link_collections.collection_id, restricted to the user's collections. */
  function JoinsOwnedCollection(userId: Id): (LinkCollection, Collection) -> bool
  {
    (lc: LinkCollection, c: Collection) => lc.collectionId == c.id && c.userId == userId
  }

  function CollectionOfPair(q: (LinkCollection, Collection)): Collection { q.1 }

  /** The unordered rows of `getCollectionsForLink`: one per join row. */
  function CollectionsForLinkRows(t: Tables, linkId: Id, userId: Id): (r: seq<Collection>)
    ensures forall c :: c in r <==>
      c in t.collections && c.userId == userId
      && exists lc :: lc in t.linkCollections && lc.linkId == linkId && lc.collectionId == c.id
  {
    var j := Seqs.Join(Seqs.Filter(t.linkCollections, OfLink(linkId)), t.collections, JoinsOwnedCollection(userId));
    var r := Seqs.Map(j, CollectionOfPair);
    forall c, lc | c in t.collections && c.userId == userId
                   && lc in t.linkCollections && lc.linkId == linkId && lc.collectionId == c.id
      ensures c in r
    {
      assert (lc, c) in j;
    }
    r
  }

  /**
   * `getCollectionsForLink(linkId, userId)`: the user's collections holding
   * the link, by name, one per join row (there is no DISTINCT).
   */
  function GetCollectionsForLink(t: Tables, linkId: Id, userId: Id): (r: seq<Collection>)
    ensures forall c :: c in r <==>
      c in t.collections && c.userId == userId
      && exists lc :: lc in t.linkCollections && lc.linkId == linkId && lc.collectionId == c.id
    ensures multiset(r) == multiset(CollectionsForLinkRows(t, linkId, userId))
    ensures Seqs.SortedBy(r, ByName, false)
  {
    OrderByName(CollectionsForLinkRows(t, linkId, userId))
  }

  /** There is no DISTINCT: a collection joined to the link by two rows is listed twice. */
  lemma CollectionsForLinkRepeat(t: Tables, linkId: Id, userId: Id, c: Collection, a: LinkCollection, b: LinkCollection)
    requires c in t.collections && c.userId == userId
    requires a in t.linkCollections && b in t.linkCollections && a != b
    requires a.linkId == linkId && b.linkId == linkId && a.collectionId == c.id && b.collectionId == c.id
    ensures multiset(GetCollectionsForLink(t, linkId, userId))[c] >= 2
  {
    Seqs.JoinedRightTwice(Seqs.Filter(t.linkCollections, OfLink(linkId)), t.collections,
                          JoinsOwnedCollection(userId), CollectionOfPair, a, b, c);
  }

  /**
   * `getPath(collectionId)`: the breadcrumb, root first and ending in the
   * collection, each element the parent of the next; empty for an unknown
   * id.  It starts at a root or at a row whose parent id names no row.
   */
  function GetPath(t: Tables, id: Id): (r: seq<Collection>)
    requires Acyclic(t.collections)
    ensures r == [] <==> GetById(t, id).None?
    ensures r != [] ==> r[|r| - 1] == GetById(t, id).value
    ensures forall i :: 0 <= i < |r| ==> r[i] in t.collections
    ensures forall i :: 0 <= i < |r| - 1 ==> r[i + 1].parentId == Some(r[i].id)
    ensures r != [] ==> r[0].parentId.None? || GetById(t, r[0].parentId.value).None?
    ensures forall i :: 0 <= i < |r| - 1 ==> r[i].id in Ancestors(t.collections, id)
    decreases if id in SomeRank(t.collections) then SomeRank(t.collections)[id] + 1 else 0
  {
    match GetById(t, id)
    case None => []
    case Some(c) =>
      if c.parentId.None? then [c]
      else
        var parentPath := GetPath(t, c.parentId.value);
        assert Ancestors(t.collections, id) == [c.parentId.value] + Ancestors(t.collections, c.parentId.value);
        parentPath + [c]
  }

  // ---------------------------------------------------------------------------
  // Writes

  /** An id that no collection uses, neither as its id nor as its parent (what a random uuid gives). */
  function FreshCollectionId(cols: seq<Collection>, parentId: Option<Id>): (r: Id)
    ensures forall c :: c in cols ==> c.id < r && (c.parentId.Some? ==> c.parentId.value < r)
    ensures parentId.Some? ==> parentId.value < r
  {
    if cols == [] then (if parentId.Some? then parentId.value + 1 else 1)
    else
      var rest := FreshCollectionId(cols[1..], parentId);
      var c := cols[0];
      var m := if c.parentId.Some? && c.parentId.value >= c.id then c.parentId.value else c.id;
      if m < rest then rest else m + 1
  }

  /**
   * Inserting a row with a fresh id keeps the keys distinct and an acyclic
   * tree acyclic, and the row can be found.
   */
  lemma InsertCollection(t: Tables, row: Collection)
    requires Consistent(t)
    requires forall c :: c in t.collections ==> c.id != row.id && c.parentId != Some(row.id)
    requires row.parentId != Some(row.id)
    ensures var t' := t.(collections := t.collections + [row]);
      Consistent(t') && GetById(t', row.id) == Some(row)
    ensures Acyclic(t.collections) ==> Acyclic(t.collections + [row])
  {
    var cols := t.collections + [row];
    assert forall i :: 0 <= i < |t.collections| ==> t.collections[i] in t.collections;
    AppendFresh(t.collections, CollectionKey, row);
    if Acyclic(t.collections) {
      AppendKeepsAcyclic(t.collections, row);
    }
    Seqs.FindByKeyUnique(cols, CollectionKey, row);
  }

  datatype NewCollection = NewCollection(
    name: string, userId: Id, description: Option<string>, color: Option<string>,
    icon: Option<string>, isPrivate: Option<bool>, parentId: Option<Id>)

  /**
   * `create(data)`: inserts one row (private unless isPrivate is false).
   * The owner must exist; the parent id is not checked, since parent_id
   * is no foreign key.  The tree is not walked: a store whose parent
   * relation is already cyclic takes the row as well, and an acyclic one
   * stays acyclic.
   */
  method Create(db: Database, data: NewCollection, now: Time) returns (r: Result<Collection, string>)
    requires Consistent(db.tables)
    modifies db
    ensures Consistent(db.tables)
    ensures Acyclic(old(db.tables.collections)) ==> Acyclic(db.tables.collections)
    ensures r.Ok? <==> UserExists(old(db.tables), data.userId)
    ensures r.Err? ==> r.error == ForeignKeyViolation && db.tables == old(db.tables)
    ensures r.Ok? ==>
      && db.tables == old(db.tables).(collections := old(db.tables.collections) + [r.value])
      && r.value.name == data.name && r.value.userId == data.userId && r.value.parentId == data.parentId
      && r.value.description == data.description && r.value.color == data.color && r.value.icon == data.icon
      && (r.value.isPrivate <==> data.isPrivate != Some(false))
      && r.value.createdAt == now && r.value.updatedAt == now
      && GetById(db.tables, r.value.id) == Some(r.value)
  {
    var t := db.tables;
    if !UserExists(t, data.userId) {
      return Err(ForeignKeyViolation);
    }
    var id := FreshCollectionId(t.collections, data.parentId);
    var row := NewCollectionRow(id, data.name, data.description, data.color, data.icon,
                                data.isPrivate, data.userId, data.parentId, now);
    InsertCollection(t, row);
    db.tables := t.(collections := t.collections + [row]);
    return Ok(row);
  }

  /**
   * The columns an update may set: `None` leaves a column as it is, and for
   * the nullable ones `Some(None)` sets NULL.
   */
  datatype CollectionPatch = CollectionPatch(
    name: Option<string>, description: Option<Option<string>>, color: Option<Option<string>>,
    icon: Option<Option<string>>, isPrivate: Option<bool>, userId: Option<Id>,
    parentId: Option<Option<Id>>, createdAt: Option<Time>)

  const NoPatch := CollectionPatch(None, None, None, None, None, None, None, None)

  /**
   * `{ ...row, ...data, updatedAt: now }`: every supplied column takes the
   * supplied value, NULL included; every other column, and the id, stays.
   * parentId references nothing, so any id, the row's own included, is
   * accepted.
   */
  function Patched(c: Collection, p: CollectionPatch, now: Time): (r: Collection)
    ensures r.id == c.id && r.updatedAt == now
    ensures r.name == p.name.GetOr(c.name) && r.description == p.description.GetOr(c.description)
    ensures r.color == p.color.GetOr(c.color) && r.icon == p.icon.GetOr(c.icon)
    ensures r.isPrivate == p.isPrivate.GetOr(c.isPrivate) && r.userId == p.userId.GetOr(c.userId)
    ensures r.parentId == p.parentId.GetOr(c.parentId) && r.createdAt == p.createdAt.GetOr(c.createdAt)
    ensures p == NoPatch ==> r == c.(updatedAt := now)
  {
    c.(name := p.name.GetOr(c.name), description := p.description.GetOr(c.description),
       color := p.color.GetOr(c.color), icon := p.icon.GetOr(c.icon),
       isPrivate := p.isPrivate.GetOr(c.isPrivate), userId := p.userId.GetOr(c.userId),
       parentId := p.parentId.GetOr(c.parentId), createdAt := p.createdAt.GetOr(c.createdAt),
       updatedAt := now)
  }

  /** The patch moves the collection to a user that does not exist, which the foreign key on user_id rejects. */
  predicate OwnerMissing(t: Tables, p: CollectionPatch)
  {
    p.userId.Some? && !UserExists(t, p.userId.value)
  }

  /**
   * `update(id, data)`: every row with that id gets the patch; the updated
   * row is returned.  A patch naming an owner that does not exist is
   * rejected by the foreign key when a row matches, and then nothing
   * changes.  No check guards parentId.
   */
  method Update(db: Database, id: Id, p: CollectionPatch, now: Time) returns (r: Result<Option<Collection>, string>)
    requires Consistent(db.tables)
    modifies db
    ensures Consistent(db.tables)
    ensures r.Err? <==> GetById(old(db.tables), id).Some? && OwnerMissing(old(db.tables), p)
    ensures r.Err? ==> r.error == ForeignKeyViolation && db.tables == old(db.tables)
    ensures r.Ok? ==>
      && r.value == (if GetById(old(db.tables), id).Some? then Some(Patched(GetById(old(db.tables), id).value, p, now)) else None)
      && |db.tables.collections| == |old(db.tables.collections)|
      && (forall i :: 0 <= i < |old(db.tables.collections)| ==>
            db.tables.collections[i] == if old(db.tables.collections[i]).id == id
                                        then Patched(old(db.tables.collections[i]), p, now)
                                        else old(db.tables.collections[i]))
      && db.tables.(collections := old(db.tables.collections)) == old(db.tables)
  {
    var t := db.tables;
    var target := GetById(t, id);
    if target.Some? && OwnerMissing(t, p) {
      return Err(ForeignKeyViolation);
    }
    var f := (c: Collection) => Patched(c, p, now);
    Seqs.MapWhereKeysDistinct(t.collections, (c: Collection) => c.id == id, f, CollectionKey);
    db.tables := t.(collections := Seqs.MapWhere(t.collections, (c: Collection) => c.id == id, f));
    r := Ok(match target case None => None case Some(c) => Some(Patched(c, p, now)));
  }

  /** One turn of the delete loop: deleting a child's subtree from what is left extends the deleted set by it. */
  lemma DeleteChildStep(t0: Tables, id: Id, d: set<Id>, child: Collection)
    requires Consistent(t0) && Acyclic(t0.collections)
    requires DownClosed(t0.collections, d) && d <= Subtree(t0.collections, id)
    requires child in t0.collections && child.parentId == Some(id)
    ensures Acyclic(DeleteCollections(t0, d).collections)
    ensures var cur := DeleteCollections(t0, d);
      DeleteCollections(cur, Subtree(cur.collections, child.id))
        == DeleteCollections(t0, d + Subtree(t0.collections, child.id))
    ensures DownClosed(t0.collections, d + Subtree(t0.collections, child.id))
    ensures d + Subtree(t0.collections, child.id) <= Subtree(t0.collections, id)
  {
    var cur := DeleteCollections(t0, d);
    SubtreeAfterRemoval(t0.collections, cur.collections, d, child.id);
    DeleteCollectionsTwice(t0, d, Subtree(cur.collections, child.id));
    DeleteCollectionsTwice(t0, d, Subtree(t0.collections, child.id));
    ChildSubtreeWithin(t0.collections, id, child);
    SubtreeDownClosed(t0.collections, child.id);
    DownClosedUnion(t0.collections, d, Subtree(t0.collections, child.id));
  }

  /** The subtrees of the first `n` children all lie in `d`. */
  ghost predicate CoversFirst(cols: seq<Collection>, children: seq<Collection>, n: nat, d: set<Id>)
    requires Acyclic(cols)
  {
    forall k :: 0 <= k < n && k < |children| ==> Subtree(cols, children[k].id) <= d
  }

  lemma CoversNext(cols: seq<Collection>, children: seq<Collection>, n: nat, d: set<Id>)
    requires Acyclic(cols) && CoversFirst(cols, children, n, d) && n < |children|
    ensures CoversFirst(cols, children, n + 1, d + Subtree(cols, children[n].id))
  {
  }

  /** Once every child's subtree is in `d`, `d` and `id` make up the whole subtree of `id`. */
  lemma CoveredSubtree(cols: seq<Collection>, id: Id, children: seq<Collection>, d: set<Id>)
    requires Acyclic(cols) && Seqs.KeysDistinct(cols, CollectionKey)
    requires forall c :: c in children <==> c in cols && c.parentId == Some(id)
    requires CoversFirst(cols, children, |children|, d) && d <= Subtree(cols, id)
    ensures d + {id} == Subtree(cols, id)
  {
    SubtreeUnderChildren(cols, id, children);
  }

  /** The two final statements of the delete: drop the link_collections rows of `id`, then its row. */
  lemma DeleteOwnRows(cur: Tables, id: Id)
    ensures cur.(linkCollections := Seqs.Filter(cur.linkCollections, (lc: LinkCollection) => lc.collectionId != id))
               .(collections := Seqs.Filter(cur.collections, (c: Collection) => c.id != id))
            == DeleteCollections(cur, {id})
  {
    var d := {id};
    Seqs.FilterExt(cur.linkCollections, (lc: LinkCollection) => lc.collectionId != id,
                   (x: LinkCollection) => x.collectionId !in d);
    Seqs.FilterExt(cur.collections, (c: Collection) => c.id != id, (x: Collection) => x.id !in d);
  }

  /**
   * `delete(id)`: deletes the subtree of every child (in name order),
   * then the link_collections rows of `id`, then the row itself.  The
   * whole subtree goes, with its link_collections rows; links stay.
   */
  method Delete(db: Database, id: Id, ghost rank: map<Id, nat>)
    requires Consistent(db.tables) && Ranked(db.tables.collections, rank)
    modifies db
    ensures Consistent(db.tables) && Ranked(db.tables.collections, rank)
    ensures Acyclic(old(db.tables.collections))
    ensures db.tables == DeleteCollections(old(db.tables), Subtree(old(db.tables.collections), id))
    decreases Height(rank, id)
  {
    ghost var t0 := db.tables;
    ghost var cols0 := t0.collections;
    assert Acyclic(cols0);
    var children := GetChildren(db.tables, id);
    ghost var d: set<Id> := {};
    assert db.tables == DeleteCollections(t0, d) by {
      Seqs.FilterKeepsAll(t0.collections, (x: Collection) => x.id !in d);
      Seqs.FilterKeepsAll(t0.linkCollections, (x: LinkCollection) => x.collectionId !in d);
    }
    var i := 0;
    while i < |children|
      invariant 0 <= i <= |children|
      invariant Consistent(db.tables) && Ranked(db.tables.collections, rank)
      invariant DownClosed(cols0, d) && d <= Subtree(cols0, id)
      invariant CoversFirst(cols0, children, i, d)
      invariant db.tables == DeleteCollections(t0, d)
    {
      var child := children[i];
      HeightOfChild(cols0, rank, id, child);
      DeleteChildStep(t0, id, d, child);
      CoversNext(cols0, children, i, d);
      Delete(db, child.id, rank);
      d := d + Subtree(cols0, child.id);
      i := i + 1;
    }
    CoveredSubtree(cols0, id, children, d);
    DeleteOwnRows(db.tables, id);
    DeleteCollectionsTwice(t0, d, {id});
    db.tables := db.tables.(linkCollections :=
      Seqs.Filter(db.tables.linkCollections, (lc: LinkCollection) => lc.collectionId != id));
    db.tables := db.tables.(collections := Seqs.Filter(db.tables.collections, (c: Collection) => c.id != id));
  }

  /**
   * What a subtree delete leaves, row by row: a collection survives unless
   * it is `id` or has `id` among its ancestors; a link_collections row
   * survives unless it points into the subtree; links are untouched.
   */
  lemma DeleteSubtreeRows(t: Tables, id: Id)
    requires Consistent(t) && Acyclic(t.collections)
    ensures var r := DeleteCollections(t, Subtree(t.collections, id));
      && (forall c :: c in r.collections <==>
            c in t.collections && c.id != id && id !in AncestorsFrom(t.collections, Some(c)))
      && (forall lc :: lc in r.linkCollections <==>
            lc in t.linkCollections && lc.collectionId !in Subtree(t.collections, id))
      && r.links == t.links && r.linksTags == t.linksTags
  {
    var s := Subtree(t.collections, id);
    forall c | c in t.collections && c.id in s && c.id != id
      ensures id in AncestorsFrom(t.collections, Some(c))
    {
      var c' :| c' in t.collections && id in AncestorsFrom(t.collections, Some(c')) && c'.id == c.id;
      Seqs.KeyDetermines(t.collections, CollectionKey, c, c');
    }
  }

  lemma PatchParentIsReparent(cols: seq<Collection>, cols': seq<Collection>, id: Id, parent: Option<Id>, now: Time)
    requires |cols'| == |cols|
    requires forall i :: 0 <= i < |cols| ==>
      cols'[i] == if cols[i].id == id then Patched(cols[i], NoPatch.(parentId := Some(parent)), now) else cols[i]
    ensures cols' == Reparented(cols, id, parent, now)
  {
    var r := Reparented(cols, id, parent, now);
    forall i | 0 <= i < |cols| ensures cols'[i] == r[i] {
      if cols[i].id == id {
        var c := cols[i];
        assert Patched(c, NoPatch.(parentId := Some(parent)), now) == c.(parentId := parent, updatedAt := now);
      }
    }
  }

  /**
   * The cycle check of `moveToParent`: walks up from the row `start`,
   * following parentId, and reports whether `target` is met as a parent id.
   */
  method ParentChainMeets(t: Tables, start: Id, target: Id) returns (found: bool)
    requires Acyclic(t.collections)
    ensures found <==> target in Ancestors(t.collections, start)
  {
    ghost var rank := SomeRank(t.collections);
    var current := GetById(t, start);
    ghost var visited: seq<Id> := [];
    while current.Some? && current.value.parentId.Some?
      invariant current.Some? ==> current.value in t.collections
      invariant Ancestors(t.collections, start) == visited + AncestorsFrom(t.collections, current)
      invariant target !in visited
      decreases if current.Some? then rank[current.value.id] + 1 else 0
    {
      var parentId := current.value.parentId.value;
      StepUp(t.collections, current.value);
      if parentId == target {
        return true;
      }
      visited := visited + [parentId];
      current := GetById(t, parentId);
    }
    return false;
  }

  /**
   * `moveToParent(collectionId, newParentId)`: when a parent is given, walks
   * up from it and refuses if `collectionId` is met among its ancestors;
   * otherwise sets parentId (NULL for no parent) and updatedAt.  The new
   * parent itself is not compared with `collectionId`.  The walk needs an
   * acyclic chain; a move to the root walks nothing and is taken on any
   * store.
   */
  method MoveToParent(db: Database, collectionId: Id, newParentId: Option<Id>, now: Time)
    returns (r: Result<Option<Collection>, string>)
    requires Consistent(db.tables) && (newParentId.Some? ==> Acyclic(db.tables.collections))
    modifies db
    ensures Consistent(db.tables)
    ensures r.Err? <==> newParentId.Some? && collectionId in Ancestors(old(db.tables.collections), newParentId.value)
    ensures r.Err? ==> r.error == CycleError && db.tables == old(db.tables)
    ensures r.Ok? ==>
      && db.tables == old(db.tables).(collections := Reparented(old(db.tables.collections), collectionId, newParentId, now))
      && r.value == (if GetById(old(db.tables), collectionId).Some?
                     then Some(GetById(old(db.tables), collectionId).value.(parentId := newParentId, updatedAt := now))
                     else None)
  {
    var t := db.tables;
    if newParentId.Some? {
      var cycle := ParentChainMeets(t, newParentId.value, collectionId);
      if cycle {
        return Err(CycleError);
      }
    }
    var updated := Update(db, collectionId, NoPatch.(parentId := Some(newParentId)), now);
    PatchParentIsReparent(t.collections, db.tables.collections, collectionId, newParentId, now);
    return Ok(updated.value);
  }

  /**
   * The cycle check lets a collection become its own parent: in an acyclic
   * table, `collectionId` is never among its own ancestors, so the move
   * is accepted, and the row that results is its own parent.
   */
  lemma MoveToSelfAccepted(t: Tables, x: Collection, now: Time)
    requires Consistent(t) && Acyclic(t.collections) && x in t.collections
    ensures x.id !in Ancestors(t.collections, x.id)
    ensures !Acyclic(Reparented(t.collections, x.id, Some(x.id), now))
  {
    Seqs.FindByKeyUnique(t.collections, CollectionKey, x);
    NotOwnAncestor(t.collections, x);
    var r := Reparented(t.collections, x.id, Some(x.id), now);
    var i :| 0 <= i < |t.collections| && t.collections[i] == x;
    assert r[i] in r;
    SelfParentIsCycle(r, r[i]);
  }

  /**
   * `update` itself guards nothing: patching a collection's parentId to its
   * own id, which it accepts, leaves the parent relation cyclic.
   */
  lemma UpdateCanCloseCycle(t: Tables, x: Collection, cols': seq<Collection>, now: Time)
    requires Consistent(t) && Acyclic(t.collections) && x in t.collections
    requires |cols'| == |t.collections|
    requires forall i :: 0 <= i < |t.collections| ==>
      cols'[i] == if t.collections[i].id == x.id
                  then Patched(t.collections[i], NoPatch.(parentId := Some(Some(x.id))), now)
                  else t.collections[i]
    ensures !Acyclic(cols')
  {
    PatchParentIsReparent(t.collections, cols', x.id, Some(x.id), now);
    MoveToSelfAccepted(t, x, now);
  }

  /**
   * `moveToParent` with the self-move refused as well: the new parent may
   * be neither the collection nor one of its descendants, and then the
   * tree stays acyclic.
   */
  method MoveToParentGuarded(db: Database, collectionId: Id, newParentId: Option<Id>, now: Time)
    returns (r: Result<Option<Collection>, string>)
    requires Consistent(db.tables) && (newParentId.Some? ==> Acyclic(db.tables.collections))
    modifies db
    ensures Consistent(db.tables)
    ensures Acyclic(old(db.tables.collections)) ==> Acyclic(db.tables.collections)
    ensures r.Err? <==>
      newParentId.Some? &&
      (newParentId.value == collectionId || collectionId in Ancestors(old(db.tables.collections), newParentId.value))
    ensures r.Err? ==> r.error == CycleError && db.tables == old(db.tables)
    ensures r.Ok? ==>
      db.tables == old(db.tables).(collections := Reparented(old(db.tables.collections), collectionId, newParentId, now))
  {
    if newParentId == Some(collectionId) {
      return Err(CycleError);
    }
    ghost var t := db.tables;
    r := MoveToParent(db, collectionId, newParentId, now);
    if r.Ok? && Acyclic(t.collections) {
      ReparentKeepsAcyclic(t.collections, collectionId, newParentId, now);
    }
  }

  // ---------------------------------------------------------------------------
  // Link membership

  /** The first link_collections row for the pair, as `addLink` looks it up. */
  function PairRow(t: Tables, collectionId: Id, linkId: Id): (r: Option<LinkCollection>)
    ensures r.Some? ==> r.value in t.linkCollections && r.value.collectionId == collectionId && r.value.linkId == linkId
    ensures r.None? <==> forall lc :: lc in t.linkCollections ==> !(lc.collectionId == collectionId && lc.linkId == linkId)
  {
    Seqs.First(t.linkCollections, (lc: LinkCollection) => lc.collectionId == collectionId && lc.linkId == linkId)
  }

  /**
   * `addLink(collectionId, linkId)`: returns the existing row for the pair
   * and inserts nothing; otherwise inserts one row (both foreign keys must
   * hold).  Afterwards the pair's row is the one returned, so a second
   * call changes nothing.
   */
  method AddLink(db: Database, collectionId: Id, linkId: Id, now: Time) returns (r: Result<LinkCollection, string>)
    requires Consistent(db.tables)
    modifies db
    ensures Consistent(db.tables)
    ensures PairRow(old(db.tables), collectionId, linkId).Some? ==>
      r == Ok(PairRow(old(db.tables), collectionId, linkId).value) && db.tables == old(db.tables)
    ensures PairRow(old(db.tables), collectionId, linkId).None? ==>
      (r.Ok? <==> CollectionExists(old(db.tables), collectionId) && LinkExists(old(db.tables), linkId))
    ensures r.Err? ==> r.error == ForeignKeyViolation && db.tables == old(db.tables)
    ensures r.Ok? && PairRow(old(db.tables), collectionId, linkId).None? ==>
      db.tables == old(db.tables).(linkCollections := old(db.tables.linkCollections) + [r.value])
    ensures r.Ok? ==> PairRow(db.tables, collectionId, linkId) == Some(r.value)
  {
    var t := db.tables;
    var existing := PairRow(t, collectionId, linkId);
    if existing.Some? {
      return Ok(existing.value);
    }
    if !CollectionExists(t, collectionId) || !LinkExists(t, linkId) {
      return Err(ForeignKeyViolation);
    }
    var row := LinkCollection(NextId(t.linkCollections, LinkCollectionKey), linkId, collectionId, now);
    AppendFresh(t.linkCollections, LinkCollectionKey, row);
    db.tables := t.(linkCollections := t.linkCollections + [row]);
    Seqs.FirstAppend(t.linkCollections, row, (lc: LinkCollection) => lc.collectionId == collectionId && lc.linkId == linkId);
    return Ok(row);
  }

  /** `removeLink(collectionId, linkId)`: deletes exactly the rows of that pair. */
  method RemoveLink(db: Database, collectionId: Id, linkId: Id)
    requires Consistent(db.tables)
    modifies db
    ensures Consistent(db.tables)
    ensures forall lc :: lc in db.tables.linkCollections <==>
      lc in old(db.tables.linkCollections) && !(lc.collectionId == collectionId && lc.linkId == linkId)
    ensures db.tables.(linkCollections := old(db.tables.linkCollections)) == old(db.tables)
    ensures PairRow(db.tables, collectionId, linkId).None?
  {
    var t := db.tables;
    var keep := (lc: LinkCollection) => !(lc.collectionId == collectionId && lc.linkId == linkId);
    Seqs.FilterKeysDistinct(t.linkCollections, keep, LinkCollectionKey);
    db.tables := t.(linkCollections := Seqs.Filter(t.linkCollections, keep));
  }
}
