/**
 * The relational store of the bookmarking service: one record type per
 * table, the column defaults applied on insert, the primary and unique
 * keys, and the ON DELETE CASCADE rules of the foreign keys.
 *
 * A table is a sequence of rows in scan order.  Row ids (UUIDs in the
 * store) are natural numbers; timestamps are readings of an abstract
 * clock where a larger value is later; JSON columns are opaque strings.
 */
module Schema {
  import opened Wrappers
  import Seqs

  type Id = nat
  type Time = int
  type Json = string

  datatype User = User(
    id: Id, name: Option<string>, email: string, emailVerified: Option<Time>,
    image: Option<string>, password: Option<string>, createdAt: Time, updatedAt: Time)

  datatype Link = Link(
    id: Id, url: string, title: string, description: Option<string>, content: Option<string>,
    image: Option<string>, favicon: Option<string>, siteName: Option<string>,
    isArchived: bool, isFavorite: bool, readingTime: Option<int>, lastVisited: Option<Time>,
    userId: Id, metadata: Option<Json>, createdAt: Time, updatedAt: Time)

  datatype Tag = Tag(
    id: Id, name: string, color: Option<string>, isAiGenerated: bool, userId: Id,
    createdAt: Time, updatedAt: Time)

  /** `parentId` is a plain column: the store neither checks it nor cascades through it. */
  datatype Collection = Collection(
    id: Id, name: string, description: Option<string>, color: Option<string>, icon: Option<string>,
    isPrivate: bool, userId: Id, parentId: Option<Id>, createdAt: Time, updatedAt: Time)

  /** `confidence` is a NUMERIC column, written and read as its decimal text. */
  datatype LinkTag = LinkTag(id: Id, linkId: Id, tagId: Id, confidence: Option<string>, createdAt: Time)

  datatype LinkCollection = LinkCollection(id: Id, linkId: Id, collectionId: Id, createdAt: Time)

  datatype Note = Note(id: Id, content: string, linkId: Id, userId: Id, createdAt: Time, updatedAt: Time)

  datatype SearchEntry = SearchEntry(id: Id, query: string, userId: Id, createdAt: Time)

  /** The `action_type` enumeration. */
  datatype ActionType =
    | SaveLink | DeleteLink | UpdateLink | AddTag | RemoveTag
    | CreateCollection | AddToCollection | Search | VisitLink

  datatype Activity = Activity(
    id: Id, userId: Id, actionType: ActionType, entityId: Option<Id>, metadata: Option<Json>,
    createdAt: Time)

  datatype Tables = Tables(
    users: seq<User>, links: seq<Link>, tags: seq<Tag>, collections: seq<Collection>,
    linksTags: seq<LinkTag>, linkCollections: seq<LinkCollection>, notes: seq<Note>,
    searchHistory: seq<SearchEntry>, activityLog: seq<Activity>)

  const EmptyTables := Tables([], [], [], [], [], [], [], [], [])

  /** The error a statement raises when a constraint of the store rejects it. */
  const ForeignKeyViolation := "insert or update violates foreign key constraint"
  const UniqueViolation := "duplicate key value violates unique constraint"

  // ---------------------------------------------------------------------------
  // The action_type enumeration and its labels

  const ActionTypeLabels: seq<string> := [
    "save_link", "delete_link", "update_link", "add_tag", "remove_tag",
    "create_collection", "add_to_collection", "search", "visit_link"]

  function ActionTypeLabel(a: ActionType): (s: string)
    ensures s in ActionTypeLabels
  {
    match a
    case SaveLink => "save_link"
    case DeleteLink => "delete_link"
    case UpdateLink => "update_link"
    case AddTag => "add_tag"
    case RemoveTag => "remove_tag"
    case CreateCollection => "create_collection"
    case AddToCollection => "add_to_collection"
    case Search => "search"
    case VisitLink => "visit_link"
  }

  /** The value the store accepts for a label, or nothing when the label is not one of the nine. */
  function ParseActionType(s: string): (r: Option<ActionType>)
    ensures r.Some? ==> ActionTypeLabel(r.value) == s
  {
    if s == "save_link" then Some(SaveLink)
    else if s == "delete_link" then Some(DeleteLink)
    else if s == "update_link" then Some(UpdateLink)
    else if s == "add_tag" then Some(AddTag)
    else if s == "remove_tag" then Some(RemoveTag)
    else if s == "create_collection" then Some(CreateCollection)
    else if s == "add_to_collection" then Some(AddToCollection)
    else if s == "search" then Some(Search)
    else if s == "visit_link" then Some(VisitLink)
    else None
  }

  /** An action type is exactly one of the nine labels, and each label names one action type. */
  lemma ActionTypeLabelsExact(s: string)
    ensures ParseActionType(s).Some? <==> s in ActionTypeLabels
  {
  }

  lemma ActionTypeRoundTrip(a: ActionType)
    ensures ParseActionType(ActionTypeLabel(a)) == Some(a)
  {
  }

  // ---------------------------------------------------------------------------
  // Keys

  function UserKey(u: User): Id { u.id }
  function UserEmail(u: User): string { u.email }
  function LinkKey(l: Link): Id { l.id }
  function TagKey(t: Tag): Id { t.id }
  function CollectionKey(c: Collection): Id { c.id }
  function LinkTagKey(lt: LinkTag): Id { lt.id }
  function LinkCollectionKey(lc: LinkCollection): Id { lc.id }
  function NoteKey(n: Note): Id { n.id }
  function SearchEntryKey(e: SearchEntry): Id { e.id }
  function ActivityKey(a: Activity): Id { a.id }

  /** Every primary key is unique, and so is `users.email`. */
  predicate Consistent(t: Tables)
  {
    && Seqs.KeysDistinct(t.users, UserKey)
    && Seqs.KeysDistinct(t.users, UserEmail)
    && Seqs.KeysDistinct(t.links, LinkKey)
    && Seqs.KeysDistinct(t.tags, TagKey)
    && Seqs.KeysDistinct(t.collections, CollectionKey)
    && Seqs.KeysDistinct(t.linksTags, LinkTagKey)
    && Seqs.KeysDistinct(t.linkCollections, LinkCollectionKey)
    && Seqs.KeysDistinct(t.notes, NoteKey)
    && Seqs.KeysDistinct(t.searchHistory, SearchEntryKey)
    && Seqs.KeysDistinct(t.activityLog, ActivityKey)
  }

  /** An id larger than every key of the table: what `defaultRandom()` yields, as far as uniqueness goes. */
  function NextId<T>(s: seq<T>, key: T -> Id): (r: Id)
    ensures forall i :: 0 <= i < |s| ==> key(s[i]) < r
  {
    if s == [] then 1
    else
      var rest := NextId(s[1..], key);
      if key(s[0]) < rest then rest else key(s[0]) + 1
  }

  /** Appending a row whose key is fresh keeps the keys distinct. */
  lemma AppendFresh<T, K>(s: seq<T>, key: T -> K, x: T)
    requires Seqs.KeysDistinct(s, key)
    requires forall i :: 0 <= i < |s| ==> key(s[i]) != key(x)
    ensures Seqs.KeysDistinct(s + [x], key)
  {
  }

  /** Appending rows whose keys run upwards from an id above every existing key keeps the keys distinct. */
  lemma AppendFreshRun<T>(s: seq<T>, key: T -> Id, run: seq<T>, firstId: Id)
    requires Seqs.KeysDistinct(s, key)
    requires forall i :: 0 <= i < |s| ==> key(s[i]) < firstId
    requires forall k :: 0 <= k < |run| ==> key(run[k]) == firstId + k
    ensures Seqs.KeysDistinct(s + run, key)
  {
  }

  predicate UserExists(t: Tables, id: Id) { exists u :: u in t.users && u.id == id }
  predicate LinkExists(t: Tables, id: Id) { exists l :: l in t.links && l.id == id }
  predicate TagExists(t: Tables, id: Id) { exists g :: g in t.tags && g.id == id }
  predicate CollectionExists(t: Tables, id: Id) { exists c :: c in t.collections && c.id == id }

  // ---------------------------------------------------------------------------
  // Column defaults

  /** A new link row: `is_archived` and `is_favorite` default to false. */
  function NewLinkRow(
    id: Id, url: string, title: string, description: Option<string>, content: Option<string>,
    image: Option<string>, favicon: Option<string>, siteName: Option<string>,
    userId: Id, metadata: Option<Json>, now: Time): (l: Link)
  {
    Link(id, url, title, description, content, image, favicon, siteName,
         false, false, None, None, userId, metadata, now, now)
  }

  /** A new tag row: `is_ai_generated` defaults to false. */
  function NewTagRow(id: Id, name: string, color: Option<string>, isAiGenerated: Option<bool>,
                     userId: Id, now: Time): Tag
  {
    Tag(id, name, color, isAiGenerated.GetOr(false), userId, now, now)
  }

  /** A new collection row: `is_private` defaults to true. */
  function NewCollectionRow(id: Id, name: string, description: Option<string>, color: Option<string>,
                            icon: Option<string>, isPrivate: Option<bool>, userId: Id,
                            parentId: Option<Id>, now: Time): Collection
  {
    Collection(id, name, description, color, icon, isPrivate.GetOr(true), userId, parentId, now, now)
  }

  lemma LinkDefaults(id: Id, url: string, title: string, description: Option<string>,
                     content: Option<string>, image: Option<string>, favicon: Option<string>,
                     siteName: Option<string>, userId: Id, metadata: Option<Json>, now: Time)
    ensures var l := NewLinkRow(id, url, title, description, content, image, favicon, siteName, userId, metadata, now);
      !l.isArchived && !l.isFavorite && l.createdAt == now && l.updatedAt == now
  {
  }

  lemma TagDefault(id: Id, name: string, color: Option<string>, isAiGenerated: Option<bool>, userId: Id, now: Time)
    ensures NewTagRow(id, name, color, isAiGenerated, userId, now).isAiGenerated
            <==> isAiGenerated == Some(true)
  {
  }

  lemma CollectionDefault(id: Id, name: string, description: Option<string>, color: Option<string>,
                          icon: Option<string>, isPrivate: Option<bool>, userId: Id,
                          parentId: Option<Id>, now: Time)
    ensures NewCollectionRow(id, name, description, color, icon, isPrivate, userId, parentId, now).isPrivate
            <==> isPrivate != Some(false)
  {
  }

  // ---------------------------------------------------------------------------
  // ON DELETE CASCADE

  /** Deleting the links in `d`: their links_tags, link_collections and notes rows go with them. */
  function DeleteLinks(t: Tables, d: set<Id>): (r: Tables)
    ensures forall x :: x in r.links <==> x in t.links && x.id !in d
    ensures forall x :: x in r.linksTags <==> x in t.linksTags && x.linkId !in d
    ensures forall x :: x in r.linkCollections <==> x in t.linkCollections && x.linkId !in d
    ensures forall x :: x in r.notes <==> x in t.notes && x.linkId !in d
    ensures r.users == t.users && r.tags == t.tags && r.collections == t.collections
    ensures r.searchHistory == t.searchHistory && r.activityLog == t.activityLog
    ensures Consistent(t) ==> Consistent(r)
  {
    var keepLink := (x: Link) => x.id !in d;
    var keepLinkTag := (x: LinkTag) => x.linkId !in d;
    var keepLinkCollection := (x: LinkCollection) => x.linkId !in d;
    var keepNote := (x: Note) => x.linkId !in d;
    Seqs.FilterKeysDistinct(t.links, keepLink, LinkKey);
    Seqs.FilterKeysDistinct(t.linksTags, keepLinkTag, LinkTagKey);
    Seqs.FilterKeysDistinct(t.linkCollections, keepLinkCollection, LinkCollectionKey);
    Seqs.FilterKeysDistinct(t.notes, keepNote, NoteKey);
    t.(links := Seqs.Filter(t.links, keepLink),
       linksTags := Seqs.Filter(t.linksTags, keepLinkTag),
       linkCollections := Seqs.Filter(t.linkCollections, keepLinkCollection),
       notes := Seqs.Filter(t.notes, keepNote))
  }

  /** Deleting the tags in `d`: their links_tags rows go with them; links stay. */
  function DeleteTags(t: Tables, d: set<Id>): (r: Tables)
    ensures forall x :: x in r.tags <==> x in t.tags && x.id !in d
    ensures forall x :: x in r.linksTags <==> x in t.linksTags && x.tagId !in d
    ensures r.(tags := t.tags, linksTags := t.linksTags) == t
    ensures Consistent(t) ==> Consistent(r)
  {
    var keepTag := (x: Tag) => x.id !in d;
    var keepLinkTag := (x: LinkTag) => x.tagId !in d;
    Seqs.FilterKeysDistinct(t.tags, keepTag, TagKey);
    Seqs.FilterKeysDistinct(t.linksTags, keepLinkTag, LinkTagKey);
    t.(tags := Seqs.Filter(t.tags, keepTag), linksTags := Seqs.Filter(t.linksTags, keepLinkTag))
  }

  /**
   * Deleting the collections in `d`: their link_collections rows go with
   * them; links stay, and so do child collections, since `parent_id` is no
   * foreign key.
   */
  function DeleteCollections(t: Tables, d: set<Id>): (r: Tables)
    ensures forall x :: x in r.collections <==> x in t.collections && x.id !in d
    ensures forall x :: x in r.linkCollections <==> x in t.linkCollections && x.collectionId !in d
    ensures r.(collections := t.collections, linkCollections := t.linkCollections) == t
    ensures Consistent(t) ==> Consistent(r)
  {
    var keepCollection := (x: Collection) => x.id !in d;
    var keepLinkCollection := (x: LinkCollection) => x.collectionId !in d;
    Seqs.FilterKeysDistinct(t.collections, keepCollection, CollectionKey);
    Seqs.FilterKeysDistinct(t.linkCollections, keepLinkCollection, LinkCollectionKey);
    t.(collections := Seqs.Filter(t.collections, keepCollection),
       linkCollections := Seqs.Filter(t.linkCollections, keepLinkCollection))
  }

  /** Deleting the collections in `a` and then those in `b` is deleting those in both. */
  lemma DeleteCollectionsTwice(t: Tables, a: set<Id>, b: set<Id>)
    ensures DeleteCollections(DeleteCollections(t, a), b) == DeleteCollections(t, a + b)
  {
    Seqs.FilterFilter(t.collections, (x: Collection) => x.id !in a, (x: Collection) => x.id !in b,
                      (x: Collection) => x.id !in a + b);
    Seqs.FilterFilter(t.linkCollections, (x: LinkCollection) => x.collectionId !in a,
                      (x: LinkCollection) => x.collectionId !in b, (x: LinkCollection) => x.collectionId !in a + b);
  }

  function OwnedLinks(t: Tables, uid: Id): set<Id> { set x | x in t.links && x.userId == uid :: x.id }
  function OwnedTags(t: Tables, uid: Id): set<Id> { set x | x in t.tags && x.userId == uid :: x.id }
  function OwnedCollections(t: Tables, uid: Id): set<Id> { set x | x in t.collections && x.userId == uid :: x.id }

  /**
   * Deleting user `uid`: every row whose `user_id` is `uid` goes, and with
   * the user's links, tags and collections go their join rows and the
   * notes on those links (whoever wrote them).
   */
  function DeleteUser(t: Tables, uid: Id): (r: Tables)
    ensures Consistent(t) ==> Consistent(r)
  {
    var t1 := DeleteLinks(t, OwnedLinks(t, uid));
    var t2 := DeleteTags(t1, OwnedTags(t, uid));
    var t3 := DeleteCollections(t2, OwnedCollections(t, uid));
    var keepUser := (x: User) => x.id != uid;
    var keepNote := (x: Note) => x.userId != uid;
    var keepEntry := (x: SearchEntry) => x.userId != uid;
    var keepActivity := (x: Activity) => x.userId != uid;
    Seqs.FilterKeysDistinct(t3.users, keepUser, UserKey);
    Seqs.FilterKeysDistinct(t3.users, keepUser, UserEmail);
    Seqs.FilterKeysDistinct(t3.notes, keepNote, NoteKey);
    Seqs.FilterKeysDistinct(t3.searchHistory, keepEntry, SearchEntryKey);
    Seqs.FilterKeysDistinct(t3.activityLog, keepActivity, ActivityKey);
    t3.(users := Seqs.Filter(t3.users, keepUser),
        notes := Seqs.Filter(t3.notes, keepNote),
        searchHistory := Seqs.Filter(t3.searchHistory, keepEntry),
        activityLog := Seqs.Filter(t3.activityLog, keepActivity))
  }

  /**
   * What the cascades of a user deletion leave behind, row by row: exactly
   * the rows that neither belong to the user nor point at a link, tag or
   * collection of the user.
   */
  lemma DeleteUserCascade(t: Tables, uid: Id)
    requires Consistent(t)
    ensures var r := DeleteUser(t, uid);
      && (forall x :: x in r.users <==> x in t.users && x.id != uid)
      && (forall x :: x in r.links <==> x in t.links && x.userId != uid)
      && (forall x :: x in r.tags <==> x in t.tags && x.userId != uid)
      && (forall x :: x in r.collections <==> x in t.collections && x.userId != uid)
      && (forall x :: x in r.notes <==>
            x in t.notes && x.userId != uid && x.linkId !in OwnedLinks(t, uid))
      && (forall x :: x in r.searchHistory <==> x in t.searchHistory && x.userId != uid)
      && (forall x :: x in r.activityLog <==> x in t.activityLog && x.userId != uid)
      && (forall x :: x in r.linksTags <==>
            x in t.linksTags && x.linkId !in OwnedLinks(t, uid) && x.tagId !in OwnedTags(t, uid))
      && (forall x :: x in r.linkCollections <==>
            x in t.linkCollections && x.linkId !in OwnedLinks(t, uid)
            && x.collectionId !in OwnedCollections(t, uid))
  {
    var r := DeleteUser(t, uid);
    forall x | x in t.links && x.userId != uid ensures x.id !in OwnedLinks(t, uid) {
      if x.id in OwnedLinks(t, uid) {
        var y :| y in t.links && y.userId == uid && y.id == x.id;
        Seqs.KeyDetermines(t.links, LinkKey, x, y);
      }
    }
    forall x | x in t.tags && x.userId != uid ensures x.id !in OwnedTags(t, uid) {
      if x.id in OwnedTags(t, uid) {
        var y :| y in t.tags && y.userId == uid && y.id == x.id;
        Seqs.KeyDetermines(t.tags, TagKey, x, y);
      }
    }
    forall x | x in t.collections && x.userId != uid ensures x.id !in OwnedCollections(t, uid) {
      if x.id in OwnedCollections(t, uid) {
        var y :| y in t.collections && y.userId == uid && y.id == x.id;
        Seqs.KeyDetermines(t.collections, CollectionKey, x, y);
      }
    }
  }
}
