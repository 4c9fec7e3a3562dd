/**
 * The links repository: a user's bookmarks listed, looked up, created,
 * updated, toggled, deleted, searched and counted.
 */
module LinksRepository {
  import opened Wrappers
  import opened Schema
  import opened Store
  import Seqs
  import Text

  const DefaultLimit: nat := 20
  const AccessDenied := "Link not found or access denied"

  // ---------------------------------------------------------------------------
  // getAllByUserId

  datatype ListOptions = ListOptions(
    limit: Option<nat>, offset: Option<nat>, sortBy: Option<string>, sortDirection: Option<string>,
    isArchived: Option<bool>, isFavorite: Option<bool>)

  const NoListOptions := ListOptions(None, None, None, None, None, None)

  /** The WHERE of the listing: the owner, and each flag that was given as a boolean. */
  predicate Listed(l: Link, userId: Id, o: ListOptions)
  {
    && l.userId == userId
    && (o.isArchived.Some? ==> l.isArchived == o.isArchived.value)
    && (o.isFavorite.Some? ==> l.isFavorite == o.isFavorite.value)
  }

  function ByCreatedAt(l: Link): seq<int> { [l.createdAt] }
  function ByUpdatedAt(l: Link): seq<int> { [l.updatedAt] }
  function ByTitle(l: Link): seq<int> { Text.Codes(l.title) }

  /** The ORDER BY chosen by `sortBy` and `sortDirection`: a column key and whether it is descending. */
  function SortOrder(sortBy: string, sortDirection: string): (Link -> seq<int>, bool)
  {
    if sortBy == "createdAt" then (ByCreatedAt, sortDirection != "asc")
    else if sortBy == "updatedAt" then (ByUpdatedAt, sortDirection != "asc")
    else if sortBy == "title" then (ByTitle, sortDirection != "asc")
    else (ByCreatedAt, true)
  }

  /** The rows the listing's WHERE selects, in scan order. */
  function ListedRows(t: Tables, userId: Id, o: ListOptions): (r: seq<Link>)
    ensures forall l :: l in r <==> l in t.links && Listed(l, userId, o)
  {
    Seqs.Filter(t.links, (l: Link) => Listed(l, userId, o))
  }

  /** `getAllByUserId(userId, options)`: the listed rows in the chosen order, `limit` of them after `offset`. */
  function GetAllByUserId(t: Tables, userId: Id, o: ListOptions): seq<Link>
  {
    var order := SortOrder(o.sortBy.GetOr("createdAt"), o.sortDirection.GetOr("desc"));
    Seqs.SortedWindow(ListedRows(t, userId, o), order.0, order.1, o.offset.GetOr(0), o.limit.GetOr(DefaultLimit))
  }

  /**
   * The listing holds only the user's links with the requested flags, each
   * at most as often as it is stored, in the requested order, and exactly
   * min(limit, max(0, n - offset)) of them, n being the number of matching
   * links (limit defaults to 20).  On the first page no matching link left
   * out sorts before the page's last row.
   */
  lemma GetAllByUserIdSpec(t: Tables, userId: Id, o: ListOptions)
    ensures var r := GetAllByUserId(t, userId, o);
      var order := SortOrder(o.sortBy.GetOr("createdAt"), o.sortDirection.GetOr("desc"));
      var rows := ListedRows(t, userId, o);
      var offset := o.offset.GetOr(0);
      && (forall l :: l in r ==> l in t.links && Listed(l, userId, o))
      && multiset(r) <= multiset(rows)
      && Seqs.SortedBy(r, order.0, order.1)
      && |r| <= o.limit.GetOr(DefaultLimit)
      && |r| == (if offset >= |rows| then 0 else Seqs.Min(o.limit.GetOr(DefaultLimit), |rows| - offset))
      && (offset == 0 && r != [] ==>
            forall l :: l in rows && l !in r ==> Seqs.InOrder(order.0(r[|r| - 1]), order.0(l), order.1))
  {
    var order := SortOrder(o.sortBy.GetOr("createdAt"), o.sortDirection.GetOr("desc"));
    var r := GetAllByUserId(t, userId, o);
    var rows := ListedRows(t, userId, o);
    assert r == Seqs.SortedWindow(rows, order.0, order.1, o.offset.GetOr(0), o.limit.GetOr(DefaultLimit));
  }

  /** The rows a listing selects depend on its flags only, not on its paging or order. */
  lemma {:induction false} ListedRowsIgnorePaging(t: Tables, userId: Id, o: ListOptions, o': ListOptions)
    requires o.isArchived == o'.isArchived && o.isFavorite == o'.isFavorite
    ensures ListedRows(t, userId, o) == ListedRows(t, userId, o')
  {
    Seqs.FilterExt(t.links, (l: Link) => Listed(l, userId, o), (l: Link) => Listed(l, userId, o'));
  }

  /**
   * Paging follows on: `a` rows from `offset`, then `b` rows from
   * `offset + a`, are the `a + b` rows from `offset` of the same listing.
   */
  lemma ListingPagesFollowOn(t: Tables, userId: Id, o: ListOptions, offset: nat, a: nat, b: nat)
    ensures GetAllByUserId(t, userId, o.(offset := Some(offset), limit := Some(a)))
          + GetAllByUserId(t, userId, o.(offset := Some(offset + a), limit := Some(b)))
         == GetAllByUserId(t, userId, o.(offset := Some(offset), limit := Some(a + b)))
  {
    var order := SortOrder(o.sortBy.GetOr("createdAt"), o.sortDirection.GetOr("desc"));
    var rows := ListedRows(t, userId, o);
    ListingIsWindow(t, userId, o, o.(offset := Some(offset), limit := Some(a)));
    ListingIsWindow(t, userId, o, o.(offset := Some(offset + a), limit := Some(b)));
    ListingIsWindow(t, userId, o, o.(offset := Some(offset), limit := Some(a + b)));
    Seqs.SortedWindowsTile(rows, order.0, order.1, offset, a, b);
  }

  /** A listing that differs only in its paging is a window of the same sorted rows. */
  lemma ListingIsWindow(t: Tables, userId: Id, o: ListOptions, p: ListOptions)
    requires p.isArchived == o.isArchived && p.isFavorite == o.isFavorite
    requires p.sortBy == o.sortBy && p.sortDirection == o.sortDirection
    ensures var order := SortOrder(o.sortBy.GetOr("createdAt"), o.sortDirection.GetOr("desc"));
      GetAllByUserId(t, userId, p)
        == Seqs.SortedWindow(ListedRows(t, userId, o), order.0, order.1, p.offset.GetOr(0), p.limit.GetOr(DefaultLimit))
  {
    ListedRowsIgnorePaging(t, userId, o, p);
  }

  /** Any `sortBy` other than createdAt, updatedAt or title orders by createdAt descending, like the default. */
  lemma UnknownSortIsDefault(sortBy: string, sortDirection: string)
    requires sortBy != "createdAt" && sortBy != "updatedAt" && sortBy != "title"
    ensures SortOrder(sortBy, sortDirection) == SortOrder("createdAt", "desc") == (ByCreatedAt, true)
  {
  }

  // ---------------------------------------------------------------------------
  // Lookups

  /** `getById(id)` without relations: the row with that id, or null. */
  function GetById(t: Tables, id: Id): (r: Option<Link>)
    ensures r.Some? ==> r.value in t.links && r.value.id == id
    ensures r.None? <==> forall l :: l in t.links ==> l.id != id
  {
    Seqs.FindByKey(t.links, LinkKey, id)
  }

  datatype Relations = Relations(tags: seq<Tag>, collections: seq<Collection>, notes: seq<Note>)
  datatype LinkWithRelations = LinkWithRelations(link: Link, relations: Option<Relations>)

  /** The tags of link `id`: links_tags INNER JOIN tags, one row per join row. */
  function RelatedTags(t: Tables, id: Id): (r: seq<Tag>)
    ensures forall g :: g in r <==>
      g in t.tags && exists lt :: lt in t.linksTags && lt.linkId == id && lt.tagId == g.id
  {
    var j := Seqs.Join(Seqs.Filter(t.linksTags, (lt: LinkTag) => lt.linkId == id), t.tags,
                       (lt: LinkTag, g: Tag) => lt.tagId == g.id);
    var r := Seqs.Map(j, (q: (LinkTag, Tag)) => q.1);
    assert forall g :: g in t.tags && (exists lt :: lt in t.linksTags && lt.linkId == id && lt.tagId == g.id) ==> g in r by {
      forall g | g in t.tags && exists lt :: lt in t.linksTags && lt.linkId == id && lt.tagId == g.id ensures g in r {
        var lt :| lt in t.linksTags && lt.linkId == id && lt.tagId == g.id;
        assert (lt, g) in j;
      }
    }
    r
  }

  /** The collections of link `id`: link_collections INNER JOIN collections. */
  function RelatedCollections(t: Tables, id: Id): (r: seq<Collection>)
    ensures forall c :: c in r <==>
      c in t.collections && exists lc :: lc in t.linkCollections && lc.linkId == id && lc.collectionId == c.id
  {
    var j := Seqs.Join(Seqs.Filter(t.linkCollections, (lc: LinkCollection) => lc.linkId == id), t.collections,
                       (lc: LinkCollection, c: Collection) => lc.collectionId == c.id);
    var r := Seqs.Map(j, (q: (LinkCollection, Collection)) => q.1);
    assert forall c :: c in t.collections && (exists lc :: lc in t.linkCollections && lc.linkId == id && lc.collectionId == c.id) ==> c in r by {
      forall c | c in t.collections && exists lc :: lc in t.linkCollections && lc.linkId == id && lc.collectionId == c.id ensures c in r {
        var lc :| lc in t.linkCollections && lc.linkId == id && lc.collectionId == c.id;
        assert (lc, c) in j;
      }
    }
    r
  }

  /** `getById(id, includeRelations)`: the link, with its tags, collections and notes when asked for. */
  function GetByIdWithRelations(t: Tables, id: Id, includeRelations: bool): (r: Option<LinkWithRelations>)
    ensures r.Some? <==> GetById(t, id).Some?
    ensures r.Some? ==> r.value.link == GetById(t, id).value
    ensures r.Some? ==> (r.value.relations.Some? <==> includeRelations)
    ensures r.Some? && includeRelations ==>
      && r.value.relations.value.tags == RelatedTags(t, id)
      && r.value.relations.value.collections == RelatedCollections(t, id)
      && (forall n :: n in r.value.relations.value.notes <==> n in t.notes && n.linkId == id)
  {
    match GetById(t, id)
    case None => None
    case Some(link) =>
      if !includeRelations then Some(LinkWithRelations(link, None))
      else
        Some(LinkWithRelations(link, Some(Relations(RelatedTags(t, id), RelatedCollections(t, id),
          Seqs.Filter(t.notes, (n: Note) => n.linkId == id)))))
  }

  /** `getByUrl(url, userId)`: the first of the user's links with that URL, or null. */
  function GetByUrl(t: Tables, url: string, userId: Id): (r: Option<Link>)
    ensures r.Some? ==> r.value in t.links && r.value.url == url && r.value.userId == userId
    ensures r.None? <==> forall l :: l in t.links ==> !(l.url == url && l.userId == userId)
  {
    Seqs.First(t.links, (l: Link) => l.url == url && l.userId == userId)
  }

  // ---------------------------------------------------------------------------
  // create

  datatype NewLink = NewLink(
    url: string, title: string, description: Option<string>, image: Option<string>,
    favicon: Option<string>, siteName: Option<string>, content: Option<string>, userId: Id,
    metadata: Option<Json>, tagIds: Option<seq<Id>>, collectionIds: Option<seq<Id>>)

  /** The links_tags rows inserted for a new link, one per tag id, with fresh ids from `firstId`. */
  function TagRows(firstId: Id, linkId: Id, tagIds: seq<Id>, now: Time): (r: seq<LinkTag>)
    ensures |r| == |tagIds|
    ensures forall k :: 0 <= k < |r| ==>
      r[k].id == firstId + k && r[k].linkId == linkId && r[k].tagId == tagIds[k] && r[k].confidence.None?
  {
    seq(|tagIds|, k requires 0 <= k < |tagIds| => LinkTag(firstId + k, linkId, tagIds[k], None, now))
  }

  /** The link_collections rows inserted for a new link, one per collection id. */
  function CollectionRows(firstId: Id, linkId: Id, collectionIds: seq<Id>, now: Time): (r: seq<LinkCollection>)
    ensures |r| == |collectionIds|
    ensures forall k :: 0 <= k < |r| ==>
      r[k].id == firstId + k && r[k].linkId == linkId && r[k].collectionId == collectionIds[k]
  {
    seq(|collectionIds|, k requires 0 <= k < |collectionIds| =>
      LinkCollection(firstId + k, linkId, collectionIds[k], now))
  }

  predicate AllTagsExist(t: Tables, ids: seq<Id>) { forall k :: 0 <= k < |ids| ==> TagExists(t, ids[k]) }
  predicate AllCollectionsExist(t: Tables, ids: seq<Id>) { forall k :: 0 <= k < |ids| ==> CollectionExists(t, ids[k]) }

  /** The row `create(data)` inserts into links: an id above every existing one and the column defaults. */
  function InsertedLink(t: Tables, data: NewLink, now: Time): (l: Link)
    ensures forall x :: x in t.links ==> x.id != l.id
    ensures !l.isArchived && !l.isFavorite && l.readingTime.None? && l.lastVisited.None?
    ensures l.userId == data.userId && l.url == data.url && l.title == data.title && l.description == data.description
    ensures l.createdAt == now && l.updatedAt == now
  {
    NewLinkRow(NextId(t.links, LinkKey), data.url, data.title, data.description,
               data.content, data.image, data.favicon, data.siteName, data.userId, data.metadata, now)
  }

  /**
   * `create(data)`: inserts the link, then one links_tags row per tag id,
   * then one link_collections row per collection id.  The statements are
   * separate: when a foreign key rejects a later insert, the earlier rows
   * stay and the later tables are untouched.
   */
  method Create(db: Database, data: NewLink, now: Time) returns (r: Result<Link, string>)
    requires Consistent(db.tables)
    modifies db
    ensures Consistent(db.tables)
    ensures var t := old(db.tables);
      var tagIds := data.tagIds.GetOr([]);
      var colIds := data.collectionIds.GetOr([]);
      var link := InsertedLink(t, data, now);
      var tagRows := TagRows(NextId(t.linksTags, LinkTagKey), link.id, tagIds, now);
      var colRows := CollectionRows(NextId(t.linkCollections, LinkCollectionKey), link.id, colIds, now);
      && (r.Ok? <==> UserExists(t, data.userId) && AllTagsExist(t, tagIds) && AllCollectionsExist(t, colIds))
      && (r.Ok? ==> r.value == link)
      && (r.Err? ==> r.error == ForeignKeyViolation)
      && (!UserExists(t, data.userId) ==> db.tables == t)
      && (UserExists(t, data.userId) && !AllTagsExist(t, tagIds) ==>
            db.tables == t.(links := t.links + [link]))
      && (UserExists(t, data.userId) && AllTagsExist(t, tagIds) && !AllCollectionsExist(t, colIds) ==>
            db.tables == t.(links := t.links + [link], linksTags := t.linksTags + tagRows))
      && (r.Ok? ==>
            db.tables == t.(links := t.links + [link], linksTags := t.linksTags + tagRows,
                            linkCollections := t.linkCollections + colRows))
  {
    var t := db.tables;
    if !UserExists(t, data.userId) {
      return Err(ForeignKeyViolation);
    }
    var link := InsertedLink(t, data, now);
    AppendFresh(t.links, LinkKey, link);
    db.tables := t.(links := t.links + [link]);

    var tagIds := data.tagIds.GetOr([]);
    assert TagRows(NextId(t.linksTags, LinkTagKey), link.id, tagIds, now) == [] <== |tagIds| == 0;
    if |tagIds| > 0 {
      if !AllTagsExist(db.tables, tagIds) {
        return Err(ForeignKeyViolation);
      }
      var rows := TagRows(NextId(t.linksTags, LinkTagKey), link.id, tagIds, now);
      AppendFreshRun(t.linksTags, LinkTagKey, rows, NextId(t.linksTags, LinkTagKey));
      db.tables := db.tables.(linksTags := t.linksTags + rows);
    }

    var colIds := data.collectionIds.GetOr([]);
    assert CollectionRows(NextId(t.linkCollections, LinkCollectionKey), link.id, colIds, now) == [] <== |colIds| == 0;
    if |colIds| > 0 {
      if !AllCollectionsExist(db.tables, colIds) {
        return Err(ForeignKeyViolation);
      }
      var rows := CollectionRows(NextId(t.linkCollections, LinkCollectionKey), link.id, colIds, now);
      AppendFreshRun(t.linkCollections, LinkCollectionKey, rows, NextId(t.linkCollections, LinkCollectionKey));
      db.tables := db.tables.(linkCollections := t.linkCollections + rows);
    }
    return Ok(link);
  }

  // ---------------------------------------------------------------------------
  // update, toggles, delete

  /**
   * The columns an update may set: `None` leaves a column as it is, and for
   * the nullable ones `Some(None)` sets NULL.
   */
  datatype LinkPatch = LinkPatch(
    url: Option<string>, title: Option<string>, description: Option<Option<string>>,
    content: Option<Option<string>>, image: Option<Option<string>>, favicon: Option<Option<string>>,
    siteName: Option<Option<string>>, isArchived: Option<bool>, isFavorite: Option<bool>,
    readingTime: Option<Option<int>>, lastVisited: Option<Option<Time>>, userId: Option<Id>,
    metadata: Option<Option<Json>>, createdAt: Option<Time>)

  const NoPatch := LinkPatch(None, None, None, None, None, None, None, None, None, None, None, None, None, None)

  /**
   * `{ ...row, ...data, updatedAt: now }`: every supplied column takes the
   * supplied value, NULL included; every other column, and the id, stays.
   */
  function Patched(l: Link, p: LinkPatch, now: Time): (r: Link)
    ensures r.id == l.id && r.updatedAt == now
    ensures r.url == p.url.GetOr(l.url) && r.title == p.title.GetOr(l.title)
    ensures r.description == p.description.GetOr(l.description) && r.content == p.content.GetOr(l.content)
    ensures r.image == p.image.GetOr(l.image) && r.favicon == p.favicon.GetOr(l.favicon)
    ensures r.siteName == p.siteName.GetOr(l.siteName)
    ensures r.isArchived == p.isArchived.GetOr(l.isArchived) && r.isFavorite == p.isFavorite.GetOr(l.isFavorite)
    ensures r.readingTime == p.readingTime.GetOr(l.readingTime) && r.lastVisited == p.lastVisited.GetOr(l.lastVisited)
    ensures r.userId == p.userId.GetOr(l.userId) && r.metadata == p.metadata.GetOr(l.metadata)
    ensures r.createdAt == p.createdAt.GetOr(l.createdAt)
    ensures p == NoPatch ==> r == l.(updatedAt := now)
  {
    l.(url := p.url.GetOr(l.url), title := p.title.GetOr(l.title),
       description := p.description.GetOr(l.description), content := p.content.GetOr(l.content),
       image := p.image.GetOr(l.image), favicon := p.favicon.GetOr(l.favicon),
       siteName := p.siteName.GetOr(l.siteName),
       isArchived := p.isArchived.GetOr(l.isArchived), isFavorite := p.isFavorite.GetOr(l.isFavorite),
       readingTime := p.readingTime.GetOr(l.readingTime), lastVisited := p.lastVisited.GetOr(l.lastVisited),
       userId := p.userId.GetOr(l.userId), metadata := p.metadata.GetOr(l.metadata),
       createdAt := p.createdAt.GetOr(l.createdAt), updatedAt := now)
  }

  /** The patch moves the link to a user that does not exist, which the foreign key on user_id rejects. */
  predicate OwnerMissing(t: Tables, p: LinkPatch)
  {
    p.userId.Some? && !UserExists(t, p.userId.value)
  }

  /**
   * `update(id, data)`: every row with that id gets the patch; the updated
   * row is returned.  A patch naming an owner that does not exist is
   * rejected by the foreign key when a row matches, and then nothing
   * changes; when no row matches nothing is checked.
   */
  method Update(db: Database, id: Id, p: LinkPatch, now: Time) returns (r: Result<Option<Link>, string>)
    requires Consistent(db.tables)
    modifies db
    ensures Consistent(db.tables)
    ensures r.Err? <==> GetById(old(db.tables), id).Some? && OwnerMissing(old(db.tables), p)
    ensures r.Err? ==> r.error == ForeignKeyViolation && db.tables == old(db.tables)
    ensures r.Ok? ==>
      && r.value == (if GetById(old(db.tables), id).Some? then Some(Patched(GetById(old(db.tables), id).value, p, now)) else None)
      && |db.tables.links| == |old(db.tables.links)|
      && (forall i :: 0 <= i < |old(db.tables.links)| ==>
            db.tables.links[i] == if old(db.tables.links[i]).id == id then Patched(old(db.tables.links[i]), p, now)
                                  else old(db.tables.links[i]))
      && db.tables.(links := old(db.tables.links)) == old(db.tables)
  {
    var t := db.tables;
    var target := GetById(t, id);
    if target.Some? && OwnerMissing(t, p) {
      return Err(ForeignKeyViolation);
    }
    var f := (l: Link) => Patched(l, p, now);
    var links := Seqs.MapWhere(t.links, (l: Link) => l.id == id, f);
    Seqs.MapWhereKeysDistinct(t.links, (l: Link) => l.id == id, f, LinkKey);
    db.tables := t.(links := links);
    r := Ok(match target case None => None case Some(l) => Some(Patched(l, p, now)));
  }

  /**
   * `toggleFavorite(id, userId)`: throws unless the link exists and belongs
   * to the user; otherwise negates isFavorite and sets updatedAt.
   */
  method ToggleFavorite(db: Database, id: Id, userId: Id, now: Time) returns (r: Result<Link, string>)
    requires Consistent(db.tables)
    modifies db
    ensures Consistent(db.tables)
    ensures r.Err? <==> GetById(old(db.tables), id).None? || GetById(old(db.tables), id).value.userId != userId
    ensures r.Err? ==> r.error == AccessDenied && db.tables == old(db.tables)
    ensures r.Ok? ==> var l := GetById(old(db.tables), id).value;
      && r.value == l.(isFavorite := !l.isFavorite, updatedAt := now)
      && |db.tables.links| == |old(db.tables.links)|
      && (forall i :: 0 <= i < |old(db.tables.links)| ==>
            db.tables.links[i] == if old(db.tables.links[i]).id == id then r.value else old(db.tables.links[i]))
      && db.tables.(links := old(db.tables.links)) == old(db.tables)
  {
    var link := GetById(db.tables, id);
    if link.None? || link.value.userId != userId {
      return Err(AccessDenied);
    }
    ghost var t := db.tables;
    var u := Update(db, id, NoPatch.(isFavorite := Some(!link.value.isFavorite)), now);
    forall i | 0 <= i < |t.links| && t.links[i].id == id ensures t.links[i] == link.value {
      Seqs.KeyDetermines(t.links, LinkKey, t.links[i], link.value);
    }
    return Ok(u.value.value);
  }

  /** `toggleArchive(id, userId)`: the same guard; negates isArchived and sets updatedAt. */
  method ToggleArchive(db: Database, id: Id, userId: Id, now: Time) returns (r: Result<Link, string>)
    requires Consistent(db.tables)
    modifies db
    ensures Consistent(db.tables)
    ensures r.Err? <==> GetById(old(db.tables), id).None? || GetById(old(db.tables), id).value.userId != userId
    ensures r.Err? ==> r.error == AccessDenied && db.tables == old(db.tables)
    ensures r.Ok? ==> var l := GetById(old(db.tables), id).value;
      && r.value == l.(isArchived := !l.isArchived, updatedAt := now)
      && |db.tables.links| == |old(db.tables.links)|
      && (forall i :: 0 <= i < |old(db.tables.links)| ==>
            db.tables.links[i] == if old(db.tables.links[i]).id == id then r.value else old(db.tables.links[i]))
      && db.tables.(links := old(db.tables.links)) == old(db.tables)
  {
    var link := GetById(db.tables, id);
    if link.None? || link.value.userId != userId {
      return Err(AccessDenied);
    }
    ghost var t := db.tables;
    var u := Update(db, id, NoPatch.(isArchived := Some(!link.value.isArchived)), now);
    forall i | 0 <= i < |t.links| && t.links[i].id == id ensures t.links[i] == link.value {
      Seqs.KeyDetermines(t.links, LinkKey, t.links[i], link.value);
    }
    return Ok(u.value.value);
  }

  /** Two successive favourite toggles restore the flag (and only the update time has moved). */
  lemma ToggleFavoriteTwice(l: Link, now1: Time, now2: Time)
    ensures var once := Patched(l, NoPatch.(isFavorite := Some(!l.isFavorite)), now1);
      Patched(once, NoPatch.(isFavorite := Some(!once.isFavorite)), now2) == l.(updatedAt := now2)
  {
  }

  /** `delete(id)`: the link goes, and by cascade its links_tags, link_collections and notes rows. */
  method Delete(db: Database, id: Id)
    requires Consistent(db.tables)
    modifies db
    ensures Consistent(db.tables)
    ensures db.tables == DeleteLinks(old(db.tables), {id})
  {
    db.tables := DeleteLinks(db.tables, {id});
  }

  /** `updateLastVisited(id)`: sets lastVisited to now and nothing else (not even updatedAt). */
  method UpdateLastVisited(db: Database, id: Id, now: Time)
    requires Consistent(db.tables)
    modifies db
    ensures Consistent(db.tables)
    ensures |db.tables.links| == |old(db.tables.links)|
    ensures forall i :: 0 <= i < |old(db.tables.links)| ==>
      db.tables.links[i] == if old(db.tables.links[i]).id == id
                            then old(db.tables.links[i]).(lastVisited := Some(now))
                            else old(db.tables.links[i])
    ensures db.tables.(links := old(db.tables.links)) == old(db.tables)
  {
    var t := db.tables;
    var f := (l: Link) => l.(lastVisited := Some(now));
    Seqs.MapWhereKeysDistinct(t.links, (l: Link) => l.id == id, f, LinkKey);
    db.tables := t.(links := Seqs.MapWhere(t.links, (l: Link) => l.id == id, f));
  }

  // ---------------------------------------------------------------------------
  // search

  datatype SearchOptions = SearchOptions(
    limit: Option<nat>, offset: Option<nat>, includeArchived: Option<bool>,
    tagIds: Option<seq<Id>>, collectionIds: Option<seq<Id>>)

  /** A result row: the link alone, or joined with the links_tags or link_collections row that matched. */
  datatype SearchRow =
    | LinkRow(link: Link)
    | LinkTagRow(link: Link, linkTag: LinkTag)
    | LinkCollectionRow(link: Link, linkCollection: LinkCollection)

  function RowByCreatedAt(r: SearchRow): seq<int> { [r.link.createdAt] }

  /** The base WHERE of a search: owner, LIKE '%query%' on the title, and archived links only if asked. */
  predicate BaseMatch(l: Link, userId: Id, query: string, includeArchived: bool)
  {
    l.userId == userId && Text.Contains(l.title, query) && (includeArchived || !l.isArchived)
  }

  /** links INNER JOIN links_tags, restricted to the base WHERE and the requested tags. */
  function TagJoin(t: Tables, userId: Id, query: string, includeArchived: bool, tagIds: seq<Id>): (r: seq<SearchRow>)
    ensures forall row :: row in r <==>
      row.LinkTagRow? && row.link in t.links && row.linkTag in t.linksTags
      && row.linkTag.linkId == row.link.id && BaseMatch(row.link, userId, query, includeArchived)
      && row.linkTag.tagId in tagIds
  {
    var j := Seqs.Join(t.links, t.linksTags, (l: Link, x: LinkTag) => l.id == x.linkId);
    var f := Seqs.Filter(j, (q: (Link, LinkTag)) => BaseMatch(q.0, userId, query, includeArchived) && q.1.tagId in tagIds);
    var r := Seqs.Map(f, (q: (Link, LinkTag)) => LinkTagRow(q.0, q.1));
    assert forall row: SearchRow :: row.LinkTagRow? && (row.link, row.linkTag) in f ==> row in r by {
      forall row: SearchRow | row.LinkTagRow? && (row.link, row.linkTag) in f ensures row in r {
        assert LinkTagRow(row.link, row.linkTag) == row;
      }
    }
    r
  }

  /** links INNER JOIN link_collections, restricted to the base WHERE and the requested collections. */
  function CollectionJoin(t: Tables, userId: Id, query: string, includeArchived: bool, collectionIds: seq<Id>): (r: seq<SearchRow>)
    ensures forall row :: row in r <==>
      row.LinkCollectionRow? && row.link in t.links && row.linkCollection in t.linkCollections
      && row.linkCollection.linkId == row.link.id && BaseMatch(row.link, userId, query, includeArchived)
      && row.linkCollection.collectionId in collectionIds
  {
    var j := Seqs.Join(t.links, t.linkCollections, (l: Link, x: LinkCollection) => l.id == x.linkId);
    var f := Seqs.Filter(j, (q: (Link, LinkCollection)) => BaseMatch(q.0, userId, query, includeArchived) && q.1.collectionId in collectionIds);
    var r := Seqs.Map(f, (q: (Link, LinkCollection)) => LinkCollectionRow(q.0, q.1));
    assert forall row: SearchRow :: row.LinkCollectionRow? && (row.link, row.linkCollection) in f ==> row in r by {
      forall row: SearchRow | row.LinkCollectionRow? && (row.link, row.linkCollection) in f ensures row in r {
        assert LinkCollectionRow(row.link, row.linkCollection) == row;
      }
    }
    r
  }

  /** The links alone, restricted to the base WHERE. */
  function PlainRows(t: Tables, userId: Id, query: string, includeArchived: bool): (r: seq<SearchRow>)
    ensures forall row :: row in r <==> row.LinkRow? && row.link in t.links && BaseMatch(row.link, userId, query, includeArchived)
  {
    var f := Seqs.Filter(t.links, (l: Link) => BaseMatch(l, userId, query, includeArchived));
    var r := Seqs.Map(f, (l: Link) => LinkRow(l));
    assert forall row: SearchRow :: row.LinkRow? && row.link in f ==> row in r by {
      forall row: SearchRow | row.LinkRow? && row.link in f ensures row in r {
        assert LinkRow(row.link) == row;
      }
    }
    r
  }

  /**
   * The unpaged rows of `search(userId, query, options)`. With both
   * filters, the link_collections join is kept for the links that also
   * appear in the links_tags join (which is empty when no link does); with
   * one filter, that filter's join; with none, the links alone.
   */
  function SearchRows(t: Tables, userId: Id, query: string, o: SearchOptions): (r: seq<SearchRow>)
    ensures var ia := o.includeArchived.GetOr(false);
      |o.tagIds.GetOr([])| > 0 && |o.collectionIds.GetOr([])| > 0 ==>
        forall row :: row in r <==>
          row in CollectionJoin(t, userId, query, ia, o.collectionIds.GetOr([]))
          && exists x :: x in TagJoin(t, userId, query, ia, o.tagIds.GetOr([])) && x.link.id == row.link.id
    ensures |o.tagIds.GetOr([])| > 0 && o.collectionIds.GetOr([]) == [] ==>
      r == TagJoin(t, userId, query, o.includeArchived.GetOr(false), o.tagIds.GetOr([]))
    ensures o.tagIds.GetOr([]) == [] && |o.collectionIds.GetOr([])| > 0 ==>
      r == CollectionJoin(t, userId, query, o.includeArchived.GetOr(false), o.collectionIds.GetOr([]))
    ensures o.tagIds.GetOr([]) == [] && o.collectionIds.GetOr([]) == [] ==>
      r == PlainRows(t, userId, query, o.includeArchived.GetOr(false))
  {
    var includeArchived := o.includeArchived.GetOr(false);
    var tagIds := o.tagIds.GetOr([]);
    var collectionIds := o.collectionIds.GetOr([]);
    if |tagIds| > 0 && |collectionIds| > 0 then
      var withTags := TagJoin(t, userId, query, includeArchived, tagIds);
      var linkIdsWithTags := seq(|withTags|, i requires 0 <= i < |withTags| => withTags[i].link.id);
      assert forall id :: id in linkIdsWithTags <==> exists x :: x in withTags && x.link.id == id by {
        forall id | id in linkIdsWithTags ensures exists x :: x in withTags && x.link.id == id {
          var i :| 0 <= i < |withTags| && linkIdsWithTags[i] == id;
          assert withTags[i] in withTags;
        }
        forall x | x in withTags ensures x.link.id in linkIdsWithTags {
          var i :| 0 <= i < |withTags| && withTags[i] == x;
          assert linkIdsWithTags[i] == x.link.id;
        }
      }
      if |linkIdsWithTags| == 0 then []
      else
        Seqs.Filter(CollectionJoin(t, userId, query, includeArchived, collectionIds),
                    (row: SearchRow) => row.link.id in linkIdsWithTags)
    else if |tagIds| > 0 then
      TagJoin(t, userId, query, includeArchived, tagIds)
    else if |collectionIds| > 0 then
      CollectionJoin(t, userId, query, includeArchived, collectionIds)
    else
      PlainRows(t, userId, query, includeArchived)
  }

  /**
   * `search(userId, query, options)`: a newest-first page of the rows,
   * `limit` (default 20) of them after skipping `offset` (default 0); on
   * the first page no row left out is newer than the last row shown. Every
   * row is one of the user's links whose title contains the query,
   * archived only when includeArchived, with the links_tags or
   * link_collections row that matched a requested tag or collection.
   */
  function Search(t: Tables, userId: Id, query: string, o: SearchOptions): (r: seq<SearchRow>)
    ensures var n := |SearchRows(t, userId, query, o)|; var offset := o.offset.GetOr(0);
      |r| == if offset >= n then 0 else Seqs.Min(o.limit.GetOr(DefaultLimit), n - offset)
    ensures forall row :: row in r ==> row in SearchRows(t, userId, query, o)
    ensures multiset(r) <= multiset(SearchRows(t, userId, query, o))
    ensures forall row :: row in r ==>
      && row.link in t.links && BaseMatch(row.link, userId, query, o.includeArchived.GetOr(false))
      && (row.LinkTagRow? ==>
            row.linkTag in t.linksTags && row.linkTag.linkId == row.link.id && row.linkTag.tagId in o.tagIds.GetOr([]))
      && (row.LinkCollectionRow? ==>
            row.linkCollection in t.linkCollections && row.linkCollection.linkId == row.link.id
            && row.linkCollection.collectionId in o.collectionIds.GetOr([]))
      && (row.LinkRow? ==> o.tagIds.GetOr([]) == [] && o.collectionIds.GetOr([]) == [])
    ensures o.offset.GetOr(0) == 0 && r != [] ==>
      forall row :: row in SearchRows(t, userId, query, o) && row !in r ==> r[|r| - 1].link.createdAt >= row.link.createdAt
    ensures Seqs.SortedBy(r, RowByCreatedAt, true)
  {
    var rows := SearchRows(t, userId, query, o);
    var r := Seqs.SortedWindow(rows, RowByCreatedAt, true, o.offset.GetOr(0), o.limit.GetOr(DefaultLimit));
    NewestRowsFirst(rows, r, o.offset.GetOr(0), o.limit.GetOr(DefaultLimit));
    r
  }

  lemma NewestRowsFirst(rows: seq<SearchRow>, r: seq<SearchRow>, offset: nat, limit: nat)
    requires r == Seqs.SortedWindow(rows, RowByCreatedAt, true, offset, limit)
    ensures forall row :: row in r ==> row in rows
    ensures multiset(r) <= multiset(rows)
    ensures offset == 0 && r != [] ==>
      forall row :: row in rows && row !in r ==> r[|r| - 1].link.createdAt >= row.link.createdAt
  {
    forall row | offset == 0 && r != [] && row in rows && row !in r
      ensures r[|r| - 1].link.createdAt >= row.link.createdAt
    {
      Seqs.DescendingSingle(r[|r| - 1].link.createdAt, row.link.createdAt);
    }
  }

  /** With both filters, when none of the user's matching links carries a requested tag, the result is empty. */
  lemma SearchBothFiltersNeedATag(t: Tables, userId: Id, query: string, o: SearchOptions)
    requires |o.tagIds.GetOr([])| > 0 && |o.collectionIds.GetOr([])| > 0
    requires forall l, lt ::
      (l in t.links && lt in t.linksTags && lt.linkId == l.id && BaseMatch(l, userId, query, o.includeArchived.GetOr(false)))
      ==> lt.tagId !in o.tagIds.GetOr([])
    ensures Search(t, userId, query, o) == []
  {
    var withTags := TagJoin(t, userId, query, o.includeArchived.GetOr(false), o.tagIds.GetOr([]));
    if withTags != [] {
      Seqs.HeadIsMember(withTags);
    }
  }

  /**
   * There is no DISTINCT: a link that carries two of the requested tags
   * comes back twice, once per matching links_tags row.
   */
  lemma SearchRepeatsLinkPerTag(t: Tables, userId: Id, query: string, o: SearchOptions, l: Link, a: LinkTag, b: LinkTag)
    requires |o.tagIds.GetOr([])| > 0 && o.collectionIds.GetOr([]) == []
    requires o.offset.GetOr(0) == 0
    requires o.limit.GetOr(DefaultLimit) >= |TagJoin(t, userId, query, o.includeArchived.GetOr(false), o.tagIds.GetOr([]))|
    requires l in t.links && BaseMatch(l, userId, query, o.includeArchived.GetOr(false))
    requires a in t.linksTags && b in t.linksTags && a != b
    requires a.linkId == l.id && b.linkId == l.id && a.tagId in o.tagIds.GetOr([]) && b.tagId in o.tagIds.GetOr([])
    ensures LinkTagRow(l, a) in Search(t, userId, query, o)
    ensures LinkTagRow(l, b) in Search(t, userId, query, o)
    ensures LinkTagRow(l, a) != LinkTagRow(l, b)
  {
    var rows := SearchRows(t, userId, query, o);
    assert rows == TagJoin(t, userId, query, o.includeArchived.GetOr(false), o.tagIds.GetOr([]));
    assert LinkTagRow(l, a) in rows && LinkTagRow(l, b) in rows;
    assert Search(t, userId, query, o)
        == Seqs.SortedWindow(rows, RowByCreatedAt, true, o.offset.GetOr(0), o.limit.GetOr(DefaultLimit));
    Seqs.WholeSortedWindow(rows, RowByCreatedAt, true, o.offset.GetOr(0), o.limit.GetOr(DefaultLimit));
  }

  // ---------------------------------------------------------------------------
  // getUserStats

  datatype Stats = Stats(total: nat, favorites: nat, archived: nat)

  /**
   * `getUserStats(userId)`: the number of the user's links, of those that
   * are favourites and of those that are archived; each is the length of
   * the listing's unpaged rows with the matching flag filter.
   */
  function GetUserStats(t: Tables, userId: Id): (s: Stats)
    ensures s.total == |ListedRows(t, userId, NoListOptions)|
    ensures s.favorites == |ListedRows(t, userId, NoListOptions.(isFavorite := Some(true)))|
    ensures s.archived == |ListedRows(t, userId, NoListOptions.(isArchived := Some(true)))|
    ensures s.favorites <= s.total && s.archived <= s.total
  {
    var all := (l: Link) => l.userId == userId;
    var favorite := (l: Link) => l.userId == userId && l.isFavorite;
    var archived := (l: Link) => l.userId == userId && l.isArchived;
    Seqs.CountMonotone(t.links, favorite, all);
    Seqs.CountMonotone(t.links, archived, all);
    CountIsListedLength(t, userId, NoListOptions, all);
    CountIsListedLength(t, userId, NoListOptions.(isFavorite := Some(true)), favorite);
    CountIsListedLength(t, userId, NoListOptions.(isArchived := Some(true)), archived);
    Stats(Seqs.Count(t.links, all), Seqs.Count(t.links, favorite), Seqs.Count(t.links, archived))
  }

  lemma CountIsListedLength(t: Tables, userId: Id, o: ListOptions, p: Link -> bool)
    requires forall l :: p(l) == Listed(l, userId, o)
    ensures Seqs.Count(t.links, p) == |ListedRows(t, userId, o)|
  {
    Seqs.CountIsFilterLength(t.links, p);
    Seqs.FilterExt(t.links, p, (l: Link) => Listed(l, userId, o));
  }
}
