/** The notes repository: a user's free-text annotations on links. */
module NotesRepository {
  import opened Wrappers
  import opened Schema
  import opened Store
  import Seqs
  import Text

  const DefaultLimit: nat := 20

  function ByUpdatedAt(n: Note): seq<int> { [n.updatedAt] }

  /** ORDER BY updated_at DESC. */
  function NewestFirst(rows: seq<Note>): (r: seq<Note>)
    ensures multiset(r) == multiset(rows)
    ensures forall n :: n in r <==> n in rows
    ensures Seqs.SortedBy(r, ByUpdatedAt, true)
  {
    Seqs.SortBySorted(rows, ByUpdatedAt, true);
    Seqs.SortBySameRows(rows, ByUpdatedAt, true);
    Seqs.SortBy(rows, ByUpdatedAt, true)
  }

  // ---------------------------------------------------------------------------
  // Queries

  /** `getByLinkId(linkId)`: every note on the link, most recently updated first. */
  function GetByLinkId(t: Tables, linkId: Id): (r: seq<Note>)
    ensures forall n :: n in r <==> n in t.notes && n.linkId == linkId
    ensures multiset(r) == multiset(Seqs.Filter(t.notes, (n: Note) => n.linkId == linkId))
    ensures Seqs.SortedBy(r, ByUpdatedAt, true)
  {
    NewestFirst(Seqs.Filter(t.notes, (n: Note) => n.linkId == linkId))
  }

  /** `getById(id)`: the row with that id, or null. */
  function GetById(t: Tables, id: Id): (r: Option<Note>)
    ensures r.Some? ==> r.value in t.notes && r.value.id == id
    ensures r.None? <==> forall n :: n in t.notes ==> n.id != id
  {
    Seqs.FindByKey(t.notes, NoteKey, id)
  }

  /** A row of the notes ⋈ links join. */
  datatype NoteWithLink = NoteWithLink(note: Note, link: Link)

  function JoinedByUpdatedAt(x: NoteWithLink): seq<int> { [x.note.updatedAt] }

  /** The join rows of the notes satisfying `p` with their links. */
  function WithLinks(t: Tables, p: Note -> bool): (r: seq<NoteWithLink>)
    ensures forall x :: x in r <==> x.note in t.notes && p(x.note) && x.link in t.links && x.note.linkId == x.link.id
  {
    var j := Seqs.Join(Seqs.Filter(t.notes, p), t.links, (n: Note, l: Link) => n.linkId == l.id);
    var r := Seqs.Map(j, (q: (Note, Link)) => NoteWithLink(q.0, q.1));
    forall x: NoteWithLink | x.note in t.notes && p(x.note) && x.link in t.links && x.note.linkId == x.link.id
      ensures x in r
    {
      assert (x.note, x.link) in j;
    }
    r
  }

  /**
   * The newest-first page of `rows` that skips `offset` rows and keeps
   * min(limit, n - offset) of the n rows; on the first page no row left
   * out was updated later than the last row shown.
   */
  function Page(rows: seq<NoteWithLink>, limit: nat, offset: nat): (r: seq<NoteWithLink>)
    ensures |r| == if offset >= |rows| then 0 else Seqs.Min(limit, |rows| - offset)
    ensures multiset(r) <= multiset(rows)
    ensures forall x :: x in r ==> x in rows
    ensures Seqs.SortedBy(r, JoinedByUpdatedAt, true)
    ensures offset == 0 && r != [] ==>
      forall x :: x in rows && x !in r ==> r[|r| - 1].note.updatedAt >= x.note.updatedAt
  {
    var r := Seqs.SortedWindow(rows, JoinedByUpdatedAt, true, offset, limit);
    PageNewestFirst(rows, r, offset, limit);
    r
  }

  lemma PageNewestFirst(rows: seq<NoteWithLink>, r: seq<NoteWithLink>, offset: nat, limit: nat)
    requires r == Seqs.SortedWindow(rows, JoinedByUpdatedAt, true, offset, limit)
    ensures offset == 0 && r != [] ==>
      forall x :: x in rows && x !in r ==> r[|r| - 1].note.updatedAt >= x.note.updatedAt
  {
    forall x | offset == 0 && r != [] && x in rows && x !in r
      ensures r[|r| - 1].note.updatedAt >= x.note.updatedAt
    {
      Seqs.DescendingSingle(r[|r| - 1].note.updatedAt, x.note.updatedAt);
    }
  }

  /** The page at `offset` continues the first `offset` rows: pages at successive offsets tile the sorted rows. */
  lemma PagesFollowOn(rows: seq<NoteWithLink>, offset: nat, limit: nat)
    ensures Page(rows, offset, 0) + Page(rows, limit, offset) == Page(rows, offset + limit, 0)
  {
    assert Page(rows, offset, 0) == Seqs.SortedWindow(rows, JoinedByUpdatedAt, true, 0, offset);
    assert Page(rows, limit, offset) == Seqs.SortedWindow(rows, JoinedByUpdatedAt, true, offset, limit);
    assert Page(rows, offset + limit, 0) == Seqs.SortedWindow(rows, JoinedByUpdatedAt, true, 0, offset + limit);
    Seqs.SortedWindowsTile(rows, JoinedByUpdatedAt, true, 0, offset, limit);
  }

  /** The user's notes joined with their links, in scan order. */
  function UserNotes(t: Tables, userId: Id): (r: seq<NoteWithLink>)
    ensures forall x :: x in r <==>
      x.note in t.notes && x.note.userId == userId && x.link in t.links && x.note.linkId == x.link.id
  {
    WithLinks(t, (n: Note) => n.userId == userId)
  }

  /**
   * `getAllByUserId(userId, limit = 20, offset = 0)`: the user's notes with
   * their links, newest first, `limit` of them after skipping `offset`.
   */
  function GetAllByUserId(t: Tables, userId: Id, limit: Option<nat>, offset: Option<nat>): (r: seq<NoteWithLink>)
    ensures var n := |UserNotes(t, userId)|;
      |r| == if offset.GetOr(0) >= n then 0 else Seqs.Min(limit.GetOr(DefaultLimit), n - offset.GetOr(0))
    ensures forall x :: x in r ==> x in UserNotes(t, userId)
    ensures offset.GetOr(0) == 0 && r != [] ==>
      forall x :: x in UserNotes(t, userId) && x !in r ==> r[|r| - 1].note.updatedAt >= x.note.updatedAt
    ensures Seqs.SortedBy(r, JoinedByUpdatedAt, true)
  {
    var r := Page(UserNotes(t, userId), limit.GetOr(DefaultLimit), offset.GetOr(0));
    r
  }

  /** The user's notes whose content contains the query ignoring case (ILIKE), joined with their links. */
  function Matches(t: Tables, userId: Id, query: string): (r: seq<NoteWithLink>)
    ensures forall x :: x in r <==>
      x.note in t.notes && x.note.userId == userId && Text.ContainsIgnoringCase(x.note.content, query)
      && x.link in t.links && x.note.linkId == x.link.id
  {
    WithLinks(t, (n: Note) => n.userId == userId && Text.ContainsIgnoringCase(n.content, query))
  }

  /**
   * `search(userId, query, limit = 20, offset = 0)`: a newest-first page of
   * the matching notes with their links, `limit` of them after skipping
   * `offset`.
   */
  function Search(t: Tables, userId: Id, query: string, limit: Option<nat>, offset: Option<nat>)
    : (r: seq<NoteWithLink>)
    ensures var n := |Matches(t, userId, query)|;
      |r| == if offset.GetOr(0) >= n then 0 else Seqs.Min(limit.GetOr(DefaultLimit), n - offset.GetOr(0))
    ensures forall x :: x in r ==> x in Matches(t, userId, query)
    ensures offset.GetOr(0) == 0 && r != [] ==>
      forall x :: x in Matches(t, userId, query) && x !in r ==> r[|r| - 1].note.updatedAt >= x.note.updatedAt
    ensures Seqs.SortedBy(r, JoinedByUpdatedAt, true)
  {
    var r := Page(Matches(t, userId, query), limit.GetOr(DefaultLimit), offset.GetOr(0));
    r
  }

  /** Matching ignores case: a note matches the query exactly when it matches its lower-cased form. */
  lemma SearchIgnoresCase(t: Tables, userId: Id, query: string)
    ensures forall x :: x in Matches(t, userId, query) <==> x in Matches(t, userId, Text.Lower(query))
  {
    Text.LowerIdempotent(query);
  }

  /**
   * `checkPermission(noteId, userId)`: some note has that id and belongs
   * to that user.
   */
  function CheckPermission(t: Tables, noteId: Id, userId: Id): (r: bool)
    ensures r <==> exists n :: n in t.notes && n.id == noteId && n.userId == userId
  {
    var found := Seqs.First(t.notes, (n: Note) => n.id == noteId && n.userId == userId);
    assert found.None? ==> forall n :: n in t.notes ==> !(n.id == noteId && n.userId == userId);
    found.Some?
  }

  /** With unique ids, permission is exactly ownership of the note `getById` finds. */
  lemma CheckPermissionIsOwnership(t: Tables, noteId: Id, userId: Id)
    requires Consistent(t)
    ensures CheckPermission(t, noteId, userId) <==>
      GetById(t, noteId).Some? && GetById(t, noteId).value.userId == userId
  {
    if CheckPermission(t, noteId, userId) {
      var n :| n in t.notes && n.id == noteId && n.userId == userId;
      Seqs.FindByKeyUnique(t.notes, NoteKey, n);
    }
  }

  // ---------------------------------------------------------------------------
  // Writes

  /** `create(data)`: inserts one note; the link and the user must exist. */
  method Create(db: Database, content: string, linkId: Id, userId: Id, now: Time) returns (r: Result<Note, string>)
    requires Consistent(db.tables)
    modifies db
    ensures Consistent(db.tables)
    ensures r.Ok? <==> LinkExists(old(db.tables), linkId) && UserExists(old(db.tables), userId)
    ensures r.Err? ==> r.error == ForeignKeyViolation && db.tables == old(db.tables)
    ensures r.Ok? ==>
      && db.tables == old(db.tables).(notes := old(db.tables.notes) + [r.value])
      && r.value.content == content && r.value.linkId == linkId && r.value.userId == userId
      && r.value.createdAt == now && r.value.updatedAt == now
      && GetById(db.tables, r.value.id) == Some(r.value)
  {
    var t := db.tables;
    if !LinkExists(t, linkId) || !UserExists(t, userId) {
      return Err(ForeignKeyViolation);
    }
    var row := Note(NextId(t.notes, NoteKey), content, linkId, userId, now, now);
    AppendFresh(t.notes, NoteKey, row);
    db.tables := t.(notes := t.notes + [row]);
    Seqs.FindByKeyUnique(db.tables.notes, NoteKey, row);
    return Ok(row);
  }

  /** `update(id, { content })`: only the addressed note changes, and only its content and updatedAt. */
  method Update(db: Database, id: Id, content: string, now: Time) returns (r: Option<Note>)
    requires Consistent(db.tables)
    modifies db
    ensures Consistent(db.tables)
    ensures r == if GetById(old(db.tables), id).Some?
                 then Some(GetById(old(db.tables), id).value.(content := content, updatedAt := now))
                 else None
    ensures |db.tables.notes| == |old(db.tables.notes)|
    ensures forall i :: 0 <= i < |old(db.tables.notes)| ==>
      db.tables.notes[i] == if old(db.tables.notes[i]).id == id
                            then old(db.tables.notes[i]).(content := content, updatedAt := now)
                            else old(db.tables.notes[i])
    ensures db.tables.(notes := old(db.tables.notes)) == old(db.tables)
  {
    var t := db.tables;
    var f := (n: Note) => n.(content := content, updatedAt := now);
    Seqs.MapWhereKeysDistinct(t.notes, (n: Note) => n.id == id, f, NoteKey);
    db.tables := t.(notes := Seqs.MapWhere(t.notes, (n: Note) => n.id == id, f));
    r := match GetById(t, id) case None => None case Some(n) => Some(f(n));
  }

  /** `delete(id)`: removes the note with that id and no other row. */
  method Delete(db: Database, id: Id)
    requires Consistent(db.tables)
    modifies db
    ensures Consistent(db.tables)
    ensures forall n :: n in db.tables.notes <==> n in old(db.tables.notes) && n.id != id
    ensures db.tables.(notes := old(db.tables.notes)) == old(db.tables)
    ensures forall u :: !CheckPermission(db.tables, id, u)
  {
    var t := db.tables;
    var keep := (n: Note) => n.id != id;
    Seqs.FilterKeysDistinct(t.notes, keep, NoteKey);
    db.tables := t.(notes := Seqs.Filter(t.notes, keep));
  }

  /** `deleteByLinkId(linkId)`: removes every note of the link and none of any other link. */
  method DeleteByLinkId(db: Database, linkId: Id)
    requires Consistent(db.tables)
    modifies db
    ensures Consistent(db.tables)
    ensures forall n :: n in db.tables.notes <==> n in old(db.tables.notes) && n.linkId != linkId
    ensures db.tables.(notes := old(db.tables.notes)) == old(db.tables)
    ensures GetByLinkId(db.tables, linkId) == []
  {
    var t := db.tables;
    var keep := (n: Note) => n.linkId != linkId;
    Seqs.FilterKeysDistinct(t.notes, keep, NoteKey);
    db.tables := t.(notes := Seqs.Filter(t.notes, keep));
    var rest := GetByLinkId(db.tables, linkId);
    if rest != [] {
      Seqs.HeadIsMember(rest);
    }
  }
}
