/**
 * The tags repository: a user's labels, manual or AI-generated, and the
 * links_tags association that attaches them to links with an optional
 * confidence score.
 */
module TagsRepository {
  import opened Wrappers
  import opened Schema
  import opened Store
  import Seqs
  import Text

  const DefaultLimit: nat := 20

  function ByName(g: Tag): seq<int> { Text.Codes(g.name) }

  /** ORDER BY name ASC. */
  function OrderByName(rows: seq<Tag>): (r: seq<Tag>)
    ensures multiset(r) == multiset(rows)
    ensures forall g :: g in r <==> g in rows
    ensures Seqs.SortedBy(r, ByName, false)
  {
    Seqs.SortBySorted(rows, ByName, false);
    Seqs.SortBySameRows(rows, ByName, false);
    Seqs.SortBy(rows, ByName, false)
  }

  // ---------------------------------------------------------------------------
  // Queries

  /** `getAllByUserId(userId)`: the user's tags, by name. */
  function GetAllByUserId(t: Tables, userId: Id): (r: seq<Tag>)
    ensures forall g :: g in r <==> g in t.tags && g.userId == userId
    ensures Seqs.SortedBy(r, ByName, false)
  {
    OrderByName(Seqs.Filter(t.tags, (g: Tag) => g.userId == userId))
  }

  /** `getById(id)`: the row with that id, or null. */
  function GetById(t: Tables, id: Id): (r: Option<Tag>)
    ensures r.Some? ==> r.value in t.tags && r.value.id == id
    ensures r.None? <==> forall g :: g in t.tags ==> g.id != id
  {
    Seqs.FindByKey(t.tags, TagKey, id)
  }

  /** `getByName(name, userId)`: the first of the user's tags with that exact name, or null. */
  function GetByName(t: Tables, name: string, userId: Id): (r: Option<Tag>)
    ensures r.Some? ==> r.value in t.tags && r.value.name == name && r.value.userId == userId
    ensures r.None? <==> forall g :: g in t.tags ==> !(g.name == name && g.userId == userId)
  {
    Seqs.First(t.tags, (g: Tag) => g.name == name && g.userId == userId)
  }

  /** `search(userId, query)`: the user's tags whose name contains the query, by name. */
  function Search(t: Tables, userId: Id, query: string): (r: seq<Tag>)
    ensures forall g :: g in r <==> g in t.tags && g.userId == userId && Text.Contains(g.name, query)
    ensures Seqs.SortedBy(r, ByName, false)
  {
    OrderByName(Seqs.Filter(t.tags, (g: Tag) => g.userId == userId && Text.Contains(g.name, query)))
  }

  /** `getAiGeneratedTags(userId)`: the user's AI-generated tags, by name. */
  function GetAiGeneratedTags(t: Tables, userId: Id): (r: seq<Tag>)
    ensures forall g :: g in r <==> g in t.tags && g.userId == userId && g.isAiGenerated
    ensures Seqs.SortedBy(r, ByName, false)
  {
    OrderByName(Seqs.Filter(t.tags, (g: Tag) => g.userId == userId && g.isAiGenerated))
  }

  /** The number of links_tags rows that point at tag `id`. */
  function LinkCount(t: Tables, id: Id): (n: nat)
    ensures n <= |t.linksTags|
    ensures n == 0 <==> forall lt :: lt in t.linksTags ==> lt.tagId != id
  {
    Seqs.Count(t.linksTags, (lt: LinkTag) => lt.tagId == id)
  }

  /** A links_tags row for a tag adds one to its link count and leaves the other counts alone. */
  lemma LinkCountAfterInsert(t: Tables, row: LinkTag, id: Id)
    ensures LinkCount(t.(linksTags := t.linksTags + [row]), id)
            == LinkCount(t, id) + (if row.tagId == id then 1 else 0)
  {
    Seqs.CountAppend(t.linksTags, row, (lt: LinkTag) => lt.tagId == id);
  }

  datatype TagWithLinkCount = TagWithLinkCount(tag: Tag, linkCount: nat)

  function ByLinkCount(x: TagWithLinkCount): seq<int> { [x.linkCount] }

  /**
   * `getTagsWithLinkCount(userId)`: one entry per tag of the user, carrying
   * the number of links_tags rows pointing at it (a LEFT JOIN grouped by
   * tag id, so a tag without links counts zero), most used first.
   */
  function GetTagsWithLinkCount(t: Tables, userId: Id): (r: seq<TagWithLinkCount>)
    ensures |r| == |Seqs.Filter(t.tags, (g: Tag) => g.userId == userId)|
    ensures forall x :: x in r ==> x.tag in t.tags && x.tag.userId == userId && x.linkCount == LinkCount(t, x.tag.id)
    ensures forall g :: g in t.tags && g.userId == userId ==> TagWithLinkCount(g, LinkCount(t, g.id)) in r
    ensures Seqs.SortedBy(r, ByLinkCount, true)
  {
    var owned := Seqs.Filter(t.tags, (g: Tag) => g.userId == userId);
    var counted := Seqs.Map(owned, (g: Tag) => TagWithLinkCount(g, LinkCount(t, g.id)));
    Seqs.SortBySorted(counted, ByLinkCount, true);
    Seqs.SortBySameRows(counted, ByLinkCount, true);
    Seqs.SortBy(counted, ByLinkCount, true)
  }

  datatype TagWithConfidence = TagWithConfidence(tag: Tag, confidence: Option<string>)

  /**
   * ORDER BY confidence DESC: PostgreSQL puts NULL first in a descending
   * order, then the scores from the largest down.
   */
  function ByConfidence(x: TagWithConfidence): seq<int>
  {
    match x.confidence
    case None => [1, 0]
    case Some(s) => [0, Text.ParseInt(s).GetOr(0)]
  }

  /** The links_tags row `lt` attaches `x.tag` to link `linkId` with `x.confidence`. */
  predicate Attaches(t: Tables, linkId: Id, lt: LinkTag, x: TagWithConfidence)
  {
    lt in t.linksTags && lt.linkId == linkId && x.tag in t.tags && lt.tagId == x.tag.id
    && x.confidence == lt.confidence
  }

  /** `getTagsForLink(linkId)`: the tags attached to the link with their confidence, highest first. */
  function GetTagsForLink(t: Tables, linkId: Id): (r: seq<TagWithConfidence>)
    ensures forall x :: x in r <==> exists lt :: Attaches(t, linkId, lt, x)
    ensures Seqs.SortedBy(r, ByConfidence, true)
  {
    var j := Seqs.Join(Seqs.Filter(t.linksTags, (lt: LinkTag) => lt.linkId == linkId),
                       t.tags, (lt: LinkTag, g: Tag) => lt.tagId == g.id);
    var rows := Seqs.Map(j, (q: (LinkTag, Tag)) => TagWithConfidence(q.1, q.0.confidence));
    forall x | x in rows ensures exists lt :: Attaches(t, linkId, lt, x) {
      var q :| q in j && x == TagWithConfidence(q.1, q.0.confidence);
      assert Attaches(t, linkId, q.0, x);
    }
    forall x: TagWithConfidence | exists lt :: Attaches(t, linkId, lt, x) ensures x in rows {
      var lt :| Attaches(t, linkId, lt, x);
      assert (lt, x.tag) in j;
    }
    Seqs.SortBySorted(rows, ByConfidence, true);
    Seqs.SortBySameRows(rows, ByConfidence, true);
    Seqs.SortBy(rows, ByConfidence, true)
  }

  function LinkByCreatedAt(l: Link): seq<int> { [l.createdAt] }

  function WithTag(tagId: Id): LinkTag -> bool
  {
    (lt: LinkTag) => lt.tagId == tagId
  }

  /** The join condition links.id = links_tags.link_id. */
  function JoinsLink(lt: LinkTag, l: Link): bool { lt.linkId == l.id }

  function LinkOfPair(q: (LinkTag, Link)): Link { q.1 }

  /** The links ⋈ links_tags rows of the tag, in scan order, one per join row. */
  function TagLinks(t: Tables, tagId: Id): (r: seq<Link>)
    ensures forall l :: l in r <==>
      l in t.links && exists lt :: lt in t.linksTags && lt.tagId == tagId && lt.linkId == l.id
  {
    var j := Seqs.Join(Seqs.Filter(t.linksTags, WithTag(tagId)), t.links, JoinsLink);
    var r := Seqs.Map(j, LinkOfPair);
    forall l, lt | l in t.links && lt in t.linksTags && lt.tagId == tagId && lt.linkId == l.id
      ensures l in r
    {
      assert (lt, l) in j;
    }
    r
  }

  /** There is no DISTINCT: a link carrying the tag through two rows comes back twice. */
  lemma TagLinksRepeat(t: Tables, tagId: Id, l: Link, a: LinkTag, b: LinkTag)
    requires l in t.links && a in t.linksTags && b in t.linksTags && a != b
    requires a.linkId == l.id && b.linkId == l.id && a.tagId == tagId && b.tagId == tagId
    ensures multiset(TagLinks(t, tagId))[l] >= 2
  {
    var rowsOf := Seqs.Filter(t.linksTags, WithTag(tagId));
    assert TagLinks(t, tagId) == Seqs.Map(Seqs.Join(rowsOf, t.links, JoinsLink), LinkOfPair);
    Seqs.JoinedRightTwice(rowsOf, t.links, JoinsLink, LinkOfPair, a, b, l);
  }

  /**
   * `getLinksForTag(tagId, limit = 20, offset = 0)`: a newest-first page of
   * the tagged links, as many as the limit allows after the offset.
   */
  function GetLinksForTag(t: Tables, tagId: Id, limit: Option<nat>, offset: Option<nat>): (r: seq<Link>)
    ensures var n := |TagLinks(t, tagId)|;
      |r| == if offset.GetOr(0) >= n then 0 else Seqs.Min(limit.GetOr(DefaultLimit), n - offset.GetOr(0))
    ensures forall l :: l in r ==> l in TagLinks(t, tagId)
    ensures multiset(r) <= multiset(TagLinks(t, tagId))
    ensures offset.GetOr(0) == 0 && r != [] ==>
      forall l :: l in TagLinks(t, tagId) && l !in r ==> r[|r| - 1].createdAt >= l.createdAt
    ensures Seqs.SortedBy(r, LinkByCreatedAt, true)
  {
    NewestLinksWindow(TagLinks(t, tagId), offset.GetOr(0), limit.GetOr(DefaultLimit))
  }

  /** The newest-first window of the rows, with what it keeps of them. */
  function NewestLinksWindow(rows: seq<Link>, offset: nat, limit: nat): (r: seq<Link>)
    ensures |r| == if offset >= |rows| then 0 else Seqs.Min(limit, |rows| - offset)
    ensures forall l :: l in r ==> l in rows
    ensures multiset(r) <= multiset(rows)
    ensures offset == 0 && r != [] ==> forall l :: l in rows && l !in r ==> r[|r| - 1].createdAt >= l.createdAt
    ensures Seqs.SortedBy(r, LinkByCreatedAt, true)
  {
    var r := Seqs.SortedWindow(rows, LinkByCreatedAt, true, offset, limit);
    assert offset == 0 && r != [] ==> forall l :: l in rows && l !in r ==> r[|r| - 1].createdAt >= l.createdAt by {
      forall l | offset == 0 && r != [] && l in rows && l !in r
        ensures r[|r| - 1].createdAt >= l.createdAt
      {
        Seqs.DescendingSingle(r[|r| - 1].createdAt, l.createdAt);
      }
    }
    r
  }


  // ---------------------------------------------------------------------------
  // Writes

  /** The values of one tag to insert; absent columns take their defaults. */
  datatype NewTag = NewTag(name: string, userId: Id, color: Option<string>, isAiGenerated: Option<bool>)

  /** `create(data)`: inserts one row (not AI-generated unless said so); the owner must exist. */
  method Create(db: Database, data: NewTag, now: Time) returns (r: Result<Tag, string>)
    requires Consistent(db.tables)
    modifies db
    ensures Consistent(db.tables)
    ensures r.Ok? <==> UserExists(old(db.tables), data.userId)
    ensures r.Err? ==> r.error == ForeignKeyViolation && db.tables == old(db.tables)
    ensures r.Ok? ==>
      && db.tables == old(db.tables).(tags := old(db.tables.tags) + [r.value])
      && (forall g :: g in old(db.tables.tags) ==> g.id != r.value.id)
      && r.value.name == data.name && r.value.userId == data.userId && r.value.color == data.color
      && r.value.isAiGenerated == data.isAiGenerated.GetOr(false)
      && r.value.createdAt == now && r.value.updatedAt == now
  {
    var t := db.tables;
    if !UserExists(t, data.userId) {
      return Err(ForeignKeyViolation);
    }
    var row := NewTagRow(NextId(t.tags, TagKey), data.name, data.color, data.isAiGenerated, data.userId, now);
    AppendFresh(t.tags, TagKey, row);
    db.tables := t.(tags := t.tags + [row]);
    return Ok(row);
  }

  /**
   * The columns an update may set; for color, `Some(None)` sets NULL.  The
   * owner and the creation time may be rewritten too.
   */
  datatype TagPatch = TagPatch(
    name: Option<string>, color: Option<Option<string>>, isAiGenerated: Option<bool>,
    userId: Option<Id>, createdAt: Option<Time>)

  /** `{ ...row, ...data, updatedAt: now }` */
  function Patched(g: Tag, p: TagPatch, now: Time): (r: Tag)
    ensures r.id == g.id && r.updatedAt == now
    ensures r.name == p.name.GetOr(g.name) && r.color == p.color.GetOr(g.color)
    ensures r.isAiGenerated == p.isAiGenerated.GetOr(g.isAiGenerated)
    ensures r.userId == p.userId.GetOr(g.userId) && r.createdAt == p.createdAt.GetOr(g.createdAt)
  {
    g.(name := p.name.GetOr(g.name), color := p.color.GetOr(g.color),
       isAiGenerated := p.isAiGenerated.GetOr(g.isAiGenerated), userId := p.userId.GetOr(g.userId),
       createdAt := p.createdAt.GetOr(g.createdAt), updatedAt := now)
  }

  /** The patch gives the tag an owner that does not exist, which the foreign key on user_id rejects. */
  predicate OwnerMissing(t: Tables, p: TagPatch)
  {
    p.userId.Some? && !UserExists(t, p.userId.value)
  }

  /**
   * `update(id, data)`: the row with that id gets the patch and the new
   * updatedAt; nothing else changes.  A patch naming an owner that does not
   * exist is rejected by the foreign key when a row matches, and then
   * nothing changes.
   */
  method Update(db: Database, id: Id, p: TagPatch, now: Time) returns (r: Result<Option<Tag>, string>)
    requires Consistent(db.tables)
    modifies db
    ensures Consistent(db.tables)
    ensures r.Err? <==> GetById(old(db.tables), id).Some? && OwnerMissing(old(db.tables), p)
    ensures r.Err? ==> r.error == ForeignKeyViolation && db.tables == old(db.tables)
    ensures r.Ok? ==>
      && r.value == (if GetById(old(db.tables), id).Some? then Some(Patched(GetById(old(db.tables), id).value, p, now)) else None)
      && |db.tables.tags| == |old(db.tables.tags)|
      && (forall i :: 0 <= i < |old(db.tables.tags)| ==>
            db.tables.tags[i] == if old(db.tables.tags[i]).id == id then Patched(old(db.tables.tags[i]), p, now)
                                 else old(db.tables.tags[i]))
      && db.tables.(tags := old(db.tables.tags)) == old(db.tables)
  {
    var t := db.tables;
    var target := GetById(t, id);
    if target.Some? && OwnerMissing(t, p) {
      return Err(ForeignKeyViolation);
    }
    var f := (g: Tag) => Patched(g, p, now);
    Seqs.MapWhereKeysDistinct(t.tags, (g: Tag) => g.id == id, f, TagKey);
    db.tables := t.(tags := Seqs.MapWhere(t.tags, (g: Tag) => g.id == id, f));
    r := Ok(match target case None => None case Some(g) => Some(Patched(g, p, now)));
  }

  /** `delete(id)`: the tag goes, and its links_tags rows with it; the links stay. */
  method Delete(db: Database, id: Id)
    requires Consistent(db.tables)
    modifies db
    ensures Consistent(db.tables)
    ensures db.tables == DeleteTags(old(db.tables), {id})
    ensures GetById(db.tables, id).None?
    ensures db.tables.links == old(db.tables.links)
  {
    db.tables := DeleteTags(db.tables, {id});
  }

  /**
   * `getOrCreate(name, userId, isAiGenerated = false)`: the user's tag
   * with that name when there is one, and then nothing is inserted;
   * otherwise a new tag.  Either way the user's tag of that name is the
   * one returned, so a second call changes nothing.
   */
  method GetOrCreate(db: Database, name: string, userId: Id, isAiGenerated: Option<bool>, now: Time)
    returns (r: Result<Tag, string>)
    requires Consistent(db.tables)
    modifies db
    ensures Consistent(db.tables)
    ensures GetByName(old(db.tables), name, userId).Some? ==>
      r == Ok(GetByName(old(db.tables), name, userId).value) && db.tables == old(db.tables)
    ensures GetByName(old(db.tables), name, userId).None? ==>
      && (r.Ok? <==> UserExists(old(db.tables), userId))
      && (r.Err? ==> r.error == ForeignKeyViolation && db.tables == old(db.tables))
      && (r.Ok? ==>
            && db.tables == old(db.tables).(tags := old(db.tables.tags) + [r.value])
            && r.value.isAiGenerated == isAiGenerated.GetOr(false))
    ensures r.Ok? ==> GetByName(db.tables, name, userId) == Some(r.value)
  {
    var existing := GetByName(db.tables, name, userId);
    if existing.Some? {
      return Ok(existing.value);
    }
    ghost var t := db.tables;
    r := Create(db, NewTag(name, userId, None, isAiGenerated), now);
    if r.Ok? {
      Seqs.FirstAppend(t.tags, r.value, (g: Tag) => g.name == name && g.userId == userId);
    }
  }

  /** The links_tags row of a (tag, link) pair, if there is one. */
  function PairRow(t: Tables, tagId: Id, linkId: Id): (r: Option<LinkTag>)
    ensures r.Some? ==> r.value in t.linksTags && r.value.tagId == tagId && r.value.linkId == linkId
    ensures r.None? <==> forall lt :: lt in t.linksTags ==> !(lt.tagId == tagId && lt.linkId == linkId)
  {
    Seqs.First(t.linksTags, (lt: LinkTag) => lt.tagId == tagId && lt.linkId == linkId)
  }

  /** The confidence column as written: the score's decimal text, or NULL when no score is given. */
  function ConfidenceText(confidence: Option<nat>): (r: Option<string>)
    ensures r.None? <==> confidence.None?
    ensures confidence.Some? ==> Text.ParseInt(r.value) == Some(confidence.value as int)
  {
    match confidence
    case None => None
    case Some(n) =>
      Text.ParseIntNatToString(n);
      Some(Text.NatToString(n))
  }

  /**
   * `addTagToLink(tagId, linkId, confidence?)`: returns the existing row of
   * the pair and inserts nothing; otherwise inserts one row carrying the
   * confidence as text (both foreign keys must hold).
   */
  method AddTagToLink(db: Database, tagId: Id, linkId: Id, confidence: Option<nat>, now: Time)
    returns (r: Result<LinkTag, string>)
    requires Consistent(db.tables)
    modifies db
    ensures Consistent(db.tables)
    ensures PairRow(old(db.tables), tagId, linkId).Some? ==>
      r == Ok(PairRow(old(db.tables), tagId, linkId).value) && db.tables == old(db.tables)
    ensures PairRow(old(db.tables), tagId, linkId).None? ==>
      (r.Ok? <==> TagExists(old(db.tables), tagId) && LinkExists(old(db.tables), linkId))
    ensures r.Err? ==> r.error == ForeignKeyViolation && db.tables == old(db.tables)
    ensures r.Ok? && PairRow(old(db.tables), tagId, linkId).None? ==>
      && db.tables == old(db.tables).(linksTags := old(db.tables.linksTags) + [r.value])
      && r.value.confidence == ConfidenceText(confidence)
    ensures r.Ok? ==> PairRow(db.tables, tagId, linkId) == Some(r.value)
  {
    var t := db.tables;
    var existing := PairRow(t, tagId, linkId);
    if existing.Some? {
      return Ok(existing.value);
    }
    if !TagExists(t, tagId) || !LinkExists(t, linkId) {
      return Err(ForeignKeyViolation);
    }
    var row := LinkTag(NextId(t.linksTags, LinkTagKey), linkId, tagId, ConfidenceText(confidence), now);
    AppendFresh(t.linksTags, LinkTagKey, row);
    db.tables := t.(linksTags := t.linksTags + [row]);
    Seqs.FirstAppend(t.linksTags, row, (lt: LinkTag) => lt.tagId == tagId && lt.linkId == linkId);
    return Ok(row);
  }

  /** `removeTagFromLink(tagId, linkId)`: deletes exactly the rows of that pair. */
  method RemoveTagFromLink(db: Database, tagId: Id, linkId: Id)
    requires Consistent(db.tables)
    modifies db
    ensures Consistent(db.tables)
    ensures forall lt :: lt in db.tables.linksTags <==>
      lt in old(db.tables.linksTags) && !(lt.tagId == tagId && lt.linkId == linkId)
    ensures db.tables.(linksTags := old(db.tables.linksTags)) == old(db.tables)
    ensures PairRow(db.tables, tagId, linkId).None?
  {
    var t := db.tables;
    var keep := (lt: LinkTag) => !(lt.tagId == tagId && lt.linkId == linkId);
    Seqs.FilterKeysDistinct(t.linksTags, keep, LinkTagKey);
    db.tables := t.(linksTags := Seqs.Filter(t.linksTags, keep));
  }

  /** The rows a batch insert writes, in input order, with ids from `firstId` up. */
  function BatchRows(firstId: Id, data: seq<NewTag>, now: Time): (r: seq<Tag>)
    ensures |r| == |data|
    ensures forall k :: 0 <= k < |r| ==>
      && r[k].id == firstId + k && r[k].name == data[k].name && r[k].color == data[k].color
      && r[k].isAiGenerated == data[k].isAiGenerated.GetOr(false) && r[k].userId == data[k].userId
      && r[k].createdAt == now && r[k].updatedAt == now
  {
    seq(|data|, k requires 0 <= k < |data| =>
      NewTagRow(firstId + k, data[k].name, data[k].color, data[k].isAiGenerated, data[k].userId, now))
  }

  predicate AllOwnersExist(t: Tables, data: seq<NewTag>)
  {
    forall k :: 0 <= k < |data| ==> UserExists(t, data[k].userId)
  }

  /**
   * `createBatch(tagData)`: an empty list returns [] without touching the
   * store; otherwise one multi-row INSERT writes one tag per entry, in
   * order, or nothing at all when a foreign key fails.
   */
  method CreateBatch(db: Database, data: seq<NewTag>, now: Time) returns (r: Result<seq<Tag>, string>)
    requires Consistent(db.tables)
    modifies db
    ensures Consistent(db.tables)
    ensures data == [] ==> r == Ok([]) && db.tables == old(db.tables)
    ensures r.Ok? <==> AllOwnersExist(old(db.tables), data)
    ensures r.Err? ==> r.error == ForeignKeyViolation && db.tables == old(db.tables)
    ensures r.Ok? ==>
      && |r.value| == |data|
      && db.tables == old(db.tables).(tags := old(db.tables.tags) + r.value)
      && r.value == BatchRows(NextId(old(db.tables.tags), TagKey), data, now)
      && (forall k :: 0 <= k < |data| ==>
            && r.value[k].name == data[k].name && r.value[k].userId == data[k].userId
            && r.value[k].color == data[k].color
            && r.value[k].isAiGenerated == data[k].isAiGenerated.GetOr(false)
            && r.value[k].createdAt == now && r.value[k].updatedAt == now
            && (forall g :: g in old(db.tables.tags) ==> g.id != r.value[k].id))
      && (forall i, j :: 0 <= i < j < |data| ==> r.value[i].id != r.value[j].id)
  {
    if |data| == 0 {
      return Ok([]);
    }
    var t := db.tables;
    if !AllOwnersExist(t, data) {
      return Err(ForeignKeyViolation);
    }
    var first := NextId(t.tags, TagKey);
    var rows := BatchRows(first, data, now);
    AppendFreshRun(t.tags, TagKey, rows, first);
    db.tables := t.(tags := t.tags + rows);
    return Ok(rows);
  }
}
