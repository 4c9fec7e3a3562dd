# pabliki.kz: a verified model of the bookmark store, account validation, routing and selection state

Pabliki is a web application with two halves: a bookmark organiser (links
with tags, nested collections, notes, a search history and an activity log,
kept in a relational database) and a form for choosing Kazakh social-media
publics to advertise in. This project models, in Dafny, the parts of the
code base whose behaviour can be stated precisely, and proves what they
promise:

- **The bookmark data layer.** The schema (`Schema`) and seven repositories
  (`LinksRepository`, `CollectionsRepository`, `TagsRepository`,
  `NotesRepository`, `SearchHistoryRepository`, `ActivityLogRepository`,
  `UsersRepository`) over an in-memory store (`Store.Database`, a class whose
  one field holds every table). Each table is a sequence of rows in scan
  order. Queries are pure functions of the tables; writes are methods that
  `modifies` the database and state the whole new set of tables. The
  predicate `Schema.Consistent` holds the uniqueness guarantees (distinct
  primary keys in every table, distinct user e-mails), and every write
  preserves it. Foreign keys are checked by each insert and update that
  writes a referencing column, which fails with a foreign-key error when
  the referenced row is missing; the `ON DELETE CASCADE` rules are part of
  the delete operations (`Schema.DeleteLinks`, the user and collection
  deletes). The collection tree (`CollectionTree`) is acyclic as a
  precondition of the recursive delete, `getPath` and the ancestor walk of
  `moveToParent`, which only terminate on an acyclic parent relation;
  `create` and a move to the root walk nothing and take any store. It is
  not an invariant of the store: `update` accepts any parentId, the row's
  own id included (`CollectionsRepository.UpdateCanCloseCycle`), and so does
  `moveToParent` (see Findings); `CollectionsRepository.MoveToParentGuarded`
  is the guarded move that keeps it.
- **Account validation and creation.** A small model of the zod features the
  schemas use (`Zod`), the login and sign-up schemas (`FormSchema`,
  `AuthForm`), the `createUser` server action (`Actions`) and the
  registration endpoint's status-code decision (`RegisterRoute`).
- **Request routing.** The middleware's decision tree (`Middleware`), and the
  path helpers of the profile menu (`ProfileMenu`) and the language switcher
  (`LanguageSwitcher`).
- **Client selection state.** The id-keyed toggle, removal and totals shared
  by the region, city, activity and public pickers (`Selection`), each picker
  (`RegionSelect`, `ActivitySelect`, `CitySelect`, `PublicSelectorButton`,
  `PublicResultsTable`), the topic and cost inputs (`TopicInput`,
  `CostInput`), the category toggles and number fields of the publics page
  (`PublicSelector`), the carousel (`Carousel`), the sidebar's expansion map
  (`Sidebar`) and the persisted app store (`AppStore`).

JavaScript's own semantics are written out where the code depends on them
(`Text`): `parseInt` (leading whitespace, sign, `0x` prefix, longest digit
run, NaN as `None`), `trim`, `split`/`join`, the `/[^\d]/g` replacement,
`toUpperCase`/`toLowerCase` on ASCII and Cyrillic letters, string length in UTF-16 code units, and the
truncating `%` of the carousel (`Carousel.JsRem`). Ids are natural numbers
(the uuids are abstracted), the clock is a `now` parameter of every writing
operation, and `ORDER BY` is a total order on a lexicographic key with ties
kept in scan order (`Seqs.SortBy`).

React components keep their state in hooks and hand new values to their
parent through callbacks. Where a component owns state (`useState` updated
by handlers and effects) it is a class whose fields are that state and
whose methods are the handlers; callbacks to the parent are recorded in a
field (`submitted`, `emitted`) or, where the component holds no state of its
own, the handler is a function from the current props to the value it
hands on. The toggle and removal helpers are written once in `Selection` and
shared: the region, activity, city, public-dialog and results-table handlers
all compute `Selection.Toggle` and `Selection.Without`, so their rows below
cite one of those handlers.

## Model

| member | source | states |
|---|---|---|
| Schema.ActionTypeLabel | src/lib/db/schema.ts:150-160 | every action type is written as one of the nine enumerated labels |
| Schema.ParseActionType | src/lib/db/schema.ts:150-160 | a label that is accepted reads back as an action type whose label it is |
| Schema.ActionTypeLabelsExact | src/lib/db/schema.ts:150-160 | a string is accepted as an action type exactly when it is one of the nine labels |
| Schema.ActionTypeRoundTrip | src/lib/db/schema.ts:150-160 | reading the label of any action type gives that action type back |
| Schema.NextId | src/lib/db/schema.ts:18 | a fresh primary key differs from, and exceeds, every key already in the table |
| Schema.LinkDefaults | src/lib/db/schema.ts:41-50 | a new link is neither archived nor a favourite and carries the insert time as created and updated time |
| Schema.TagDefault | src/lib/db/schema.ts:58 | a new tag is AI-generated exactly when the insert says so explicitly; the default is false |
| Schema.CollectionDefault | src/lib/db/schema.ts:73 | a new collection is private unless the insert explicitly says it is not |
| Schema.DeleteLinks | src/lib/db/schema.ts:86-116 | deleting links removes exactly those links and, by the cascades, their links_tags, link_collections and notes rows; other tables are untouched and the keys stay unique |
| Schema.DeleteTags | src/lib/db/schema.ts:91-93 | deleting tags removes exactly those tags and their links_tags rows; links and every other table are untouched |
| Schema.DeleteCollections | src/lib/db/schema.ts:104-106 | deleting collections removes exactly those collections and their link_collections rows; links, and child collections (parent_id is no foreign key), are untouched |
| Schema.DeleteCollectionsTwice | src/lib/db/schema.ts:104-106 | deleting two sets of collections one after the other is deleting their union |
| Schema.DeleteUser | src/lib/db/schema.ts:45-167 | the cascade from a user keeps every primary key and the email unique |
| Schema.DeleteUserCascade | src/lib/db/schema.ts:45-167 | deleting a user removes exactly their user row, links, tags, collections, notes, search history and activity log, plus the join rows and notes hanging off their links, tags and collections, and nothing else |
| LinksRepository.ListedRows | src/lib/db/repositories/links.ts:34-43 | the rows considered are exactly the user's links, filtered by each of isArchived and isFavorite only when it is a boolean |
| LinksRepository.GetAllByUserIdSpec | src/lib/db/repositories/links.ts:24-109 | the result holds only listed rows, none more often than stored, sorted by the chosen column and direction, at most `limit` (default 20) of them, and exactly min(limit, n - offset) of the n listed rows; on the first page no listed row left out sorts before the last one shown |
| LinksRepository.ListingPagesFollowOn | src/lib/db/repositories/links.ts:102-108 | `a` rows from any offset followed by `b` rows from that offset plus `a` are the `a + b` rows from the offset, in the same listing, so offset skips exactly the rows of the earlier pages |
| LinksRepository.UnknownSortIsDefault | src/lib/db/repositories/links.ts:100-108 | a sortBy other than createdAt, updatedAt and title orders by createdAt descending, whatever the direction |
| LinksRepository.GetById | src/lib/db/repositories/links.ts:114-115 | the link with that id, or none exactly when no link has it |
| LinksRepository.RelatedTags | src/lib/db/repositories/links.ts:120-127 | exactly the tags joined to the link through links_tags |
| LinksRepository.RelatedCollections | src/lib/db/repositories/links.ts:130-136 | exactly the collections joined to the link through link_collections |
| LinksRepository.GetByIdWithRelations | src/lib/db/repositories/links.ts:113-147 | found iff the link exists; relations are attached exactly when asked for, and are the link's tags, collections and notes |
| LinksRepository.GetByUrl | src/lib/db/repositories/links.ts:150-156 | a link with that url and owner, or none exactly when the user has no link with that url |
| LinksRepository.TagRows | src/lib/db/repositories/links.ts:181-188 | one links_tags row per tag id, in order, each pointing at the new link, with no confidence |
| LinksRepository.CollectionRows | src/lib/db/repositories/links.ts:191-198 | one link_collections row per collection id, in order, each pointing at the new link |
| LinksRepository.Create | src/lib/db/repositories/links.ts:159-201 | succeeds iff the owner and every tag and collection exist, returning the inserted link (fresh id, not archived, not a favourite); a missing owner changes nothing; a missing tag keeps the new link but no links_tags rows; a missing collection keeps the link and its links_tags rows but no link_collections rows; on success one row per tag and per collection follows it, and no other table changes |
| LinksRepository.Patched | src/lib/db/repositories/links.ts:204-211 | each supplied column, NULL included, comes from the patch (owner and creation time too), the others are kept; the id stays and updatedAt is the current time; the empty patch changes only updatedAt |
| LinksRepository.Update | src/lib/db/repositories/links.ts:204-211 | rejected with a foreign-key error, changing nothing, exactly when the link exists and the patch names an owner that does not exist; otherwise the addressed link, and only it, is replaced by its patched version, which is returned; nothing when no link has the id |
| LinksRepository.ToggleFavorite | src/lib/db/repositories/links.ts:214-219 | fails, changing nothing, when the link is missing or another user's; otherwise negates only isFavorite (and updatedAt) of that link |
| LinksRepository.ToggleArchive | src/lib/db/repositories/links.ts:222-227 | fails, changing nothing, when the link is missing or another user's; otherwise negates only isArchived (and updatedAt) of that link |
| LinksRepository.ToggleFavoriteTwice | src/lib/db/repositories/links.ts:214-219 | two favourite toggles restore the link except for updatedAt |
| LinksRepository.Delete | src/lib/db/repositories/links.ts:230-232 | the store after deleting is the cascade delete of that one link |
| LinksRepository.UpdateLastVisited | src/lib/db/repositories/links.ts:352-354 | only lastVisited of the addressed link changes |
| LinksRepository.TagJoin | src/lib/db/repositories/links.ts:294-302 | one row per (link, links_tags) pair whose link matches the base conditions and whose tag is requested; a link with two requested tags appears twice |
| LinksRepository.CollectionJoin | src/lib/db/repositories/links.ts:306-314 | one row per (link, link_collections) pair whose link matches the base conditions and whose collection is requested |
| LinksRepository.PlainRows | src/lib/db/repositories/links.ts:318-324 | one row per link of the user whose title contains the query, archived links only when asked |
| LinksRepository.SearchRows | src/lib/db/repositories/links.ts:246-325 | with both filters exactly the link_collections join rows whose link also appears in the links_tags join (none when no link does); with one filter exactly that join; with none exactly the matching links |
| LinksRepository.Search | src/lib/db/repositories/links.ts:235-325 | exactly min(limit, n - offset) of the n unpaged rows (none past the end), newest first, none more often than in the unpaged rows; on the first page no row left out is newer than the last shown; every row is the user's link with the query in its title, unarchived unless asked, joined with a links_tags or link_collections row of a requested tag or collection |
| LinksRepository.SearchBothFiltersNeedATag | src/lib/db/repositories/links.ts:262-274 | with both tag and collection filters, no link carrying a requested tag means an empty result |
| LinksRepository.SearchRepeatsLinkPerTag | src/lib/db/repositories/links.ts:294-302 | with a tag filter, a link joined to two requested tags is returned as two distinct rows |
| LinksRepository.GetUserStats | src/lib/db/repositories/links.ts:328-349 | total, favourites and archived are the numbers of the user's links, of those with isFavorite and of those with isArchived: the lengths of the listing's unpaged rows with no flag filter, isFavorite = true and isArchived = true; neither count exceeds the total |
| UsersRepository.GetById | src/lib/db/repositories/users.ts:12-15 | the user with that id, or null exactly when there is none |
| UsersRepository.GetByEmail | src/lib/db/repositories/users.ts:18-21 | a user with that email, or null exactly when there is none |
| UsersRepository.GetByEmailUnique | src/lib/db/schema.ts:20 | with unique emails, looking up any user's email finds that very user |
| UsersRepository.Create | src/lib/db/repositories/users.ts:24-27 | refused, changing nothing, exactly when the email is taken; otherwise appends and returns the row with the given fields, findable by id and by email |
| UsersRepository.Patched | src/lib/db/repositories/users.ts:30-37 | each supplied field, createdAt and NULLs of the nullable columns included, is taken from the patch and every other field kept; the id stays; updatedAt is the current time |
| UsersRepository.Update | src/lib/db/repositories/users.ts:30-37 | refused, changing nothing, exactly when the new email belongs to another user; otherwise only the addressed row is patched and returned |
| UsersRepository.Delete | src/lib/db/repositories/users.ts:40-42 | the store becomes the user's cascade delete: no row anywhere is left with that user id |
| CollectionsRepository.OrderByName | src/lib/db/repositories/collections.ts:13 | ORDER BY name: the same rows, as a multiset, sorted by name |
| CollectionsRepository.GetRootCollections | src/lib/db/repositories/collections.ts:8-14 | exactly the user's collections with no parent, sorted by name |
| CollectionsRepository.GetAllByUserId | src/lib/db/repositories/collections.ts:17-23 | exactly the user's collections, sorted by name |
| CollectionsRepository.GetById | src/lib/db/repositories/collections.ts:26-29 | the collection with that id, or null exactly when there is none |
| CollectionsRepository.GetChildren | src/lib/db/repositories/collections.ts:32-38 | exactly the collections whose parent is the given id, sorted by name |
| CollectionsRepository.Search | src/lib/db/repositories/collections.ts:101-107 | exactly the user's collections whose name contains the query, sorted by name |
| CollectionsRepository.LinkCount | src/lib/db/repositories/collections.ts:45-48 | the number of link_collections rows pointing at the collection: 0 exactly when none does |
| CollectionsRepository.GetCollectionsWithLinkCount | src/lib/db/repositories/collections.ts:41-57 | the user's collections in name order, each paired with its own link count |
| CollectionsRepository.LinkCountAfterInsert | src/lib/db/repositories/collections.ts:41-57 | inserting a join row raises the count of its own collection by one and of no other |
| CollectionsRepository.CollectionLinks | src/lib/db/repositories/collections.ts:145-148 | exactly the links joined to the collection through link_collections |
| CollectionsRepository.CollectionLinksRepeat | src/lib/db/repositories/collections.ts:145-148 | with no DISTINCT, a link joined to the collection by two link_collections rows appears at least twice |
| CollectionsRepository.GetLinks | src/lib/db/repositories/collections.ts:141-152 | exactly min(limit, n - offset) of the collection's n joined links (none past the end), each at most as often as it is joined, newest first; on the first page no link left out is newer than the last shown |
| CollectionsRepository.CollectionsForLinkRows | src/lib/db/repositories/collections.ts:183-188 | the join rows are exactly the user's collections that a link_collections row ties to the link |
| CollectionsRepository.GetCollectionsForLink | src/lib/db/repositories/collections.ts:182-191 | exactly the user's collections holding the link, sorted by name, a permutation of the join rows |
| CollectionsRepository.CollectionsForLinkRepeat | src/lib/db/repositories/collections.ts:182-191 | with no DISTINCT, a collection joined to the link by two link_collections rows is listed at least twice |
| CollectionsRepository.GetPath | src/lib/db/repositories/collections.ts:171-179 | empty exactly for an unknown id; otherwise ends in the collection, each element is the parent of the next, the first has no (existing) parent, and the others are the collection's ancestors |
| CollectionsRepository.FreshCollectionId | src/lib/db/schema.ts:68 | a new collection id is unused as an id and as a parent id |
| CollectionsRepository.InsertCollection | src/lib/db/repositories/collections.ts:69-70 | appending a fresh collection keeps the keys unique and an acyclic parent relation acyclic, and makes the row findable |
| CollectionsRepository.Create | src/lib/db/repositories/collections.ts:60-71 | on any consistent store, cyclic or not: succeeds exactly when the owner exists; appends and returns the row with the given name, owner, parent, description, color and icon, private unless told otherwise; an acyclic tree stays acyclic |
| CollectionsRepository.Patched | src/lib/db/repositories/collections.ts:74-81 | each supplied column, NULL included, comes from the patch (owner, parent and creation time too), the others are kept; the id stays and updatedAt is the current time |
| CollectionsRepository.Update | src/lib/db/repositories/collections.ts:74-81 | rejected with a foreign-key error, changing nothing, exactly when the collection exists and the patch names an owner that does not exist; otherwise only the addressed collection is patched and returned; nothing when no collection has the id |
| CollectionsRepository.UpdateCanCloseCycle | src/lib/db/repositories/collections.ts:74-81 | the store that update leaves after setting a collection's parentId to its own id has a cyclic parent relation |
| CollectionsRepository.Delete | src/lib/db/repositories/collections.ts:84-98 | the children are deleted first, recursively, then the join rows and the row itself: the store ends as the delete of the whole subtree |
| CollectionsRepository.DeleteSubtreeRows | src/lib/db/repositories/collections.ts:84-98 | the delete removes exactly the collection and its descendants and their link_collections rows, and never removes links or links_tags rows |
| CollectionsRepository.MoveToParent | src/lib/db/repositories/collections.ts:155-168 | refused, changing nothing, exactly when a new parent is given and the collection is a proper ancestor of it; otherwise only its parentId (and updatedAt) is set; a move to the root is taken on any store, a cyclic one included, and needs no walk |
| CollectionsRepository.MoveToSelfAccepted | src/lib/db/repositories/collections.ts:157-167 | a collection is never its own ancestor, so the loop lets it become its own parent, which makes the parent relation cyclic |
| CollectionsRepository.MoveToParentGuarded | src/lib/db/repositories/collections.ts:155-168 | with the self-move refused too, a move keeps an acyclic parent relation acyclic |
| CollectionsRepository.PairRow | src/lib/db/repositories/collections.ts:111-116 | the join row for the (collection, link) pair, or none exactly when there is none |
| CollectionsRepository.AddLink | src/lib/db/repositories/collections.ts:110-129 | an existing pair is returned and nothing is inserted; otherwise one row is appended when both ends exist, and the pair is then present |
| CollectionsRepository.RemoveLink | src/lib/db/repositories/collections.ts:132-138 | removes exactly the rows matching both ids; every other table is untouched |
| CollectionTree.Find | src/lib/db/repositories/collections.ts:158-163 | the lookup the ancestor walk does: the row with that id, or none exactly when there is none |
| CollectionTree.SelfParentIsCycle | src/lib/db/schema.ts:77 | a collection that is its own parent makes the parent relation cyclic |
| CollectionTree.NotOwnAncestor | src/lib/db/repositories/collections.ts:159-164 | in an acyclic store a collection never appears among its own ancestors |
| CollectionTree.Reparented | src/lib/db/repositories/collections.ts:167 | reparenting changes only the addressed row's parentId and updatedAt |
| CollectionTree.ReparentKeepsAcyclic | src/lib/db/repositories/collections.ts:155-168 | reparenting under a parent that is neither the collection nor one of its descendants keeps the relation acyclic |
| CollectionTree.AppendKeepsAcyclic | src/lib/db/repositories/collections.ts:69 | appending a collection nobody points at and that is not its own parent keeps the relation acyclic |
| CollectionsRepository.ParentChainMeets | src/lib/db/repositories/collections.ts:157-165 | the walk up from the new parent reports a cycle exactly when the moved collection is among the new parent's ancestors |
| TagsRepository.OrderByName | src/lib/db/repositories/tags.ts:9 | ORDER BY name: the same rows, as a multiset, sorted by name |
| TagsRepository.GetAllByUserId | src/lib/db/repositories/tags.ts:8-10 | exactly the user's tags, sorted by name |
| TagsRepository.GetById | src/lib/db/repositories/tags.ts:13-16 | the tag with that id, or null exactly when there is none |
| TagsRepository.GetByName | src/lib/db/repositories/tags.ts:19-25 | a tag of the user with that name, or null exactly when the user has none |
| TagsRepository.Search | src/lib/db/repositories/tags.ts:68-74 | exactly the user's tags whose name contains the query, sorted by name |
| TagsRepository.GetAiGeneratedTags | src/lib/db/repositories/tags.ts:146-152 | exactly the user's AI-generated tags, sorted by name |
| TagsRepository.LinkCount | src/lib/db/repositories/tags.ts:53-56 | the number of links_tags rows pointing at the tag: 0 exactly when none does |
| TagsRepository.LinkCountAfterInsert | src/lib/db/repositories/tags.ts:49-65 | inserting a join row raises the count of its own tag by one and of no other |
| TagsRepository.GetTagsWithLinkCount | src/lib/db/repositories/tags.ts:49-65 | one entry per tag of the user (zero-link tags included), each with its own link count, in non-increasing count order |
| TagsRepository.GetTagsForLink | src/lib/db/repositories/tags.ts:119-129 | exactly the link's tags, each with the confidence of its join row, highest confidence first |
| TagsRepository.TagLinks | src/lib/db/repositories/tags.ts:136-139 | exactly the links joined to the tag through links_tags |
| TagsRepository.TagLinksRepeat | src/lib/db/repositories/tags.ts:136-139 | with no DISTINCT, a link carrying the tag through two links_tags rows appears at least twice |
| TagsRepository.GetLinksForTag | src/lib/db/repositories/tags.ts:132-143 | exactly min(limit, n - offset) of the tag's n joined links (none past the end), each at most as often as it is joined, newest first; on the first page no link left out is newer than the last shown |
| TagsRepository.Create | src/lib/db/repositories/tags.ts:28-31 | succeeds exactly when the owner exists; appends and returns a fresh row with the given fields, not AI-generated unless told |
| TagsRepository.Patched | src/lib/db/repositories/tags.ts:34-41 | supplied fields, owner, createdAt and a NULL colour included, come from the patch, the others are kept; the id stays; updatedAt is the current time |
| TagsRepository.Update | src/lib/db/repositories/tags.ts:34-41 | refused with the foreign-key error, changing nothing, exactly when the tag exists and the patch names an owner that does not; otherwise only the addressed tag is patched and returned, nothing when no tag has the id |
| TagsRepository.Delete | src/lib/db/repositories/tags.ts:44-46 | the store becomes the tag's cascade delete: its links_tags rows go, links stay |
| TagsRepository.GetOrCreate | src/lib/db/repositories/tags.ts:77-86 | an existing (name, user) tag is returned and nothing changes; otherwise exactly one tag is appended, AI-generated only when asked; afterwards the name finds the result |
| TagsRepository.PairRow | src/lib/db/repositories/tags.ts:90-93 | the join row for the (tag, link) pair, or none exactly when there is none |
| TagsRepository.ConfidenceText | src/lib/db/repositories/tags.ts:104 | the stored confidence is null exactly when none is given, and otherwise reads back as the given number |
| TagsRepository.AddTagToLink | src/lib/db/repositories/tags.ts:89-109 | an existing pair is returned and nothing is inserted; otherwise one row carrying the confidence text is appended when both ends exist |
| TagsRepository.RemoveTagFromLink | src/lib/db/repositories/tags.ts:112-116 | removes exactly the rows matching both ids; every other table is untouched |
| TagsRepository.BatchRows | src/lib/db/repositories/tags.ts:164 | one new row per input, in order, with consecutive ids from the first, each carrying its input's name, colour and owner, the AI flag defaulting to false, and both timestamps the current time |
| TagsRepository.CreateBatch | src/lib/db/repositories/tags.ts:155-166 | an empty list returns [] and changes nothing; a missing owner fails the whole insert and changes nothing; otherwise exactly the batch rows are appended and returned, one per input in order with its name, colour, owner and AI flag (default false), both timestamps now, and ids distinct from each other and from every existing tag |
| NotesRepository.NewestFirst | src/lib/db/repositories/notes.ts:9 | ORDER BY updated_at DESC: the same rows, as a multiset, newest first |
| NotesRepository.GetByLinkId | src/lib/db/repositories/notes.ts:8-10 | exactly the notes of that link, each once, newest updatedAt first |
| NotesRepository.GetById | src/lib/db/repositories/notes.ts:28-31 | the note with that id, or null exactly when there is none |
| NotesRepository.WithLinks | src/lib/db/repositories/notes.ts:19-20 | the inner join of the selected notes with their links |
| NotesRepository.Page | src/lib/db/repositories/notes.ts:22-24 | exactly min(limit, n - offset) of the n input rows (none past the end), drawn from them, newest updatedAt first; on the first page no row left out was updated later than the last shown |
| NotesRepository.PagesFollowOn | src/lib/db/repositories/notes.ts:22-24 | the first `offset` rows followed by the page at `offset` are the first `offset + limit` rows: successive pages tile the ordering |
| NotesRepository.UserNotes | src/lib/db/repositories/notes.ts:14-21 | exactly the user's notes joined with their links |
| NotesRepository.GetAllByUserId | src/lib/db/repositories/notes.ts:13-25 | exactly min(limit, n - offset) of the user's n joined notes (limit 20 and offset 0 by default), newest first; on the first page no note left out is newer than the last shown |
| NotesRepository.Matches | src/lib/db/repositories/notes.ts:77 | exactly the user's notes whose content contains the query ignoring case, joined with their links |
| NotesRepository.Search | src/lib/db/repositories/notes.ts:69-81 | exactly min(limit, n - offset) of the n matching joined notes, newest first; on the first page no match left out is newer than the last shown |
| NotesRepository.SearchIgnoresCase | src/lib/db/repositories/notes.ts:77 | the query and its lower-cased form match the same notes |
| NotesRepository.CheckPermission | src/lib/db/repositories/notes.ts:60-66 | true exactly when a note with that id belongs to that user |
| NotesRepository.CheckPermissionIsOwnership | src/lib/db/repositories/notes.ts:60-66 | with unique ids: true exactly when the note exists and its owner is the user |
| NotesRepository.Create | src/lib/db/repositories/notes.ts:34-37 | succeeds exactly when link and user exist; appends and returns the note with the given content, link and owner |
| NotesRepository.Update | src/lib/db/repositories/notes.ts:40-47 | only the addressed note's content and updatedAt change, and that note is returned |
| NotesRepository.Delete | src/lib/db/repositories/notes.ts:50-52 | removes exactly the note with that id; afterwards nobody has permission on it |
| NotesRepository.DeleteByLinkId | src/lib/db/repositories/notes.ts:55-57 | removes every note of the link and no note of another link |
| SearchHistoryRepository.RecordSearch | src/lib/db/repositories/search-history.ts:8-16 | succeeds exactly when the user exists, appending exactly one fresh row with that user and query and returning it |
| SearchHistoryRepository.UserEntries | src/lib/db/repositories/search-history.ts:20-24 | exactly the user's rows, newest first |
| SearchHistoryRepository.GetRecentSearches | src/lib/db/repositories/search-history.ts:19-26 | the first min(limit, n) of the user's n rows, newest first; limit defaults to 10 |
| SearchHistoryRepository.RecordedSearchComesFirst | src/lib/db/repositories/search-history.ts:8-26 | a search recorded later than all of the user's others heads the recent list |
| SearchHistoryRepository.Occurrences | src/lib/db/repositories/search-history.ts:33 | a query's count is positive exactly when the user searched for it |
| SearchHistoryRepository.UserQueries | src/lib/db/repositories/search-history.ts:37 | the GROUP BY keys: each query of the user exactly once |
| SearchHistoryRepository.Groups | src/lib/db/repositories/search-history.ts:31-37 | one row per distinct query of the user, carrying its count |
| SearchHistoryRepository.GetFrequentSearches | src/lib/db/repositories/search-history.ts:29-40 | exactly min(limit, number of distinct queries) groups (limit 10 by default), each a distinct query of the user with its positive count, in non-increasing count order; no query left out was searched more often than the last one listed |
| SearchHistoryRepository.ClearHistory | src/lib/db/repositories/search-history.ts:43-45 | removes every row of the user and no row of another user |
| SearchHistoryRepository.DeleteSearch | src/lib/db/repositories/search-history.ts:48-52 | removes a row only when both its id and its user match |
| ActivityLogRepository.LogActivity | src/lib/db/repositories/activity-log.ts:11-18 | succeeds exactly when the user exists, appending exactly one fresh row with the given user, action type, entity and metadata |
| ActivityLogRepository.NewestPage | src/lib/db/repositories/activity-log.ts:26-28 | exactly min(limit, n - offset) of the n input rows (none past the end), drawn from them, newest first; on the first page no row left out is newer than the last shown |
| ActivityLogRepository.NewestPagesFollowOn | src/lib/db/repositories/activity-log.ts:26-28 | the first `offset` rows followed by the page at `offset` are the first `offset + limit` rows: successive pages tile the ordering |
| ActivityLogRepository.UserRows | src/lib/db/repositories/activity-log.ts:25-36 | exactly the user's rows, of the given action type when one is given |
| ActivityLogRepository.GetRecentActivities | src/lib/db/repositories/activity-log.ts:21-29 | exactly min(limit, n - offset) of the user's n rows (limit 20 and offset 0 by default), newest first; on the first page no row of the user left out is newer than the last shown |
| ActivityLogRepository.GetActivitiesByType | src/lib/db/repositories/activity-log.ts:32-40 | exactly min(limit, n - offset) of the n rows matching both the user and the action type, newest first; on the first page no matching row left out is newer than the last shown |
| ActivityLogRepository.GetActivitiesByDateRange | src/lib/db/repositories/activity-log.ts:43-54 | exactly the user's rows whose time lies between the bounds inclusive, each once, newest first |
| ActivityLogRepository.DateRangeBounds | src/lib/db/repositories/activity-log.ts:50 | BETWEEN is inclusive: a row at either bound is returned, and a reversed range returns nothing |
| ActivityLogRepository.EntityRows | src/lib/db/repositories/activity-log.ts:59-65 | exactly the rows about the entity paired with their own user |
| ActivityLogRepository.GetActivitiesForEntity | src/lib/db/repositories/activity-log.ts:57-69 | exactly min(limit, n - offset) of the entity's n rows with their users, newest first; on the first page no row left out is newer than the last shown |
| ActivityLogRepository.DeleteOldActivities | src/lib/db/repositories/activity-log.ts:72-74 | removes exactly the rows strictly older than the date; rows at the date stay |
| Zod.Failures | src/lib/validations/form-schema.ts:5-12 | a zod string chain reports one issue per failing check, under the field's path and with that check's message, and none exactly when every check passes |
| Zod.ParseString | src/lib/validations/form-schema.ts:5-12 | a string field parses to itself exactly when it is a string passing every check; otherwise at least one issue on its own path, and a type issue alone for a non-string |
| FormSchema.LoginSchema | src/lib/validations/form-schema.ts:4-14 | accepted exactly when email and password pass, giving the values with rememberMe as supplied; issues only on email and password |
| FormSchema.EmptyEmailReportsBoth | src/lib/validations/form-schema.ts:5-8 | an empty email reports both 'Email is required' and 'Must be a valid email', in that order |
| FormSchema.ParseTerms | src/lib/validations/form-schema.ts:31-33 | terms are accepted exactly when they are true; false gets the terms message |
| FormSchema.SignupFieldIssues | src/lib/validations/form-schema.ts:21-33 | the field checks pass exactly when name has 2+ characters, email and password pass, confirmPassword is a string and terms are true |
| FormSchema.FieldIssuesLeaveMismatchToRefinement | src/lib/validations/form-schema.ts:21-38 | the field checks never report the password mismatch, which only the refinement files, and a declined terms box is always reported |
| FormSchema.SignupSchema | src/lib/validations/form-schema.ts:19-38 | accepted exactly when every field passes and the passwords match; with the fields well typed a mismatch is reported on confirmPassword, while a field of the wrong type aborts before the mismatch check |
| FormSchema.SignupCredentialsLogIn | src/lib/validations/form-schema.ts:4-38 | whatever signup accepts, login accepts with the same email and password |
| AuthForm.LoginIssues | src/components/auth/auth-form.tsx:32-35 | no issues exactly when the email is an email and the password has 6+ characters; issues only on those two fields |
| AuthForm.RegisterFieldIssues | src/components/auth/auth-form.tsx:38-43 | the field checks pass exactly when name has 2+ characters, email is an email and both passwords have 6+; they never report the mismatch |
| AuthForm.RegisterIssues | src/components/auth/auth-form.tsx:37-47 | no issues exactly when the fields pass and the passwords match; a mismatch is reported on confirmPassword unless a wrongly typed field aborted first |
| AuthForm.DefaultValues | src/components/auth/auth-form.tsx:86-89 | all default values are empty strings; name and confirmPassword exist only in register mode |
| AuthForm.DefaultsAreRejected | src/components/auth/auth-form.tsx:86-89 | the untouched form never validates |
| AuthForm.ReturnUrl | src/components/auth/auth-form.tsx:78 | the returnUrl parameter when present and non-empty, otherwise redirectPath |
| AuthForm.LoginErrorMessage | src/components/auth/auth-form.tsx:105-108 | 'CredentialsSignin' shows as 'Invalid email or password'; any other error verbatim |
| AuthForm.SubmitEffect | src/components/auth/auth-form.tsx:93-157 | exactly one toast; a failure never navigates, a success first pushes; loading stays set only after a successful login; 'Something went wrong' exactly when decoding or the call threw (or the answer carries that text) |
| AuthForm.LoginTarget | src/components/auth/auth-form.tsx:113-121 | a successful login pushes the answer's url or the decoded returnUrl, then refreshes |
| AuthForm.Form.Submit | src/components/auth/auth-form.tsx:172 | invalid values record the schema's issues and run nothing; valid ones run onSubmit's effect on toasts, navigation and loading |
| AuthForm.Form.OnSubmit | src/components/auth/auth-form.tsx:93-157 | appends the submission's toasts and navigation and leaves loading as it says |
| Actions.ActionSchema | src/app/api/actions.ts:8-18 | accepted exactly when name has 2+ characters, email is an email and the password has 8+; issues only on those fields |
| Actions.CreateUser | src/app/api/actions.ts:7-45 | validation first, then the duplicate check, then the insert: invalid input returns its issues, a taken email 'Email already in use', a failing repository 'Failed to create user', all without writing; otherwise exactly one user is appended and returned |
| RegisterRoute.RouteSchema | src/app/api/auth/register/route.ts:17-21 | accepted exactly for an object whose name has 2+ characters, email is an email and password has 6+; a non-object gets the object-expected issue |
| RegisterRoute.Post | src/app/api/auth/register/route.ts:23-75 | the whole response on every branch: 500 'Internal server error' for a malformed body, a throwing lookup or a throwing provider; 400 'Validation failed' with the issues exactly for a body that fails the schema; 409 exactly for a valid body whose email is taken; 201 with the id exactly when the email is free and the provider creates the account; 500 with the provider's message when it refuses |
| RegisterRoute.TakenEmailNeverReachesProvider | src/app/api/auth/register/route.ts:42-48 | with the email taken the provider's answer cannot change the response |
| RegisterRoute.FormRegistrationPassesRoute | src/app/api/auth/register/route.ts:17-21 | whatever the register form accepts, the endpoint's schema accepts |
| RegisterRoute.RouteAcceptsWhatActionRefuses | src/app/api/auth/register/route.ts:20 | a six-character password passes the endpoint but not the createUser action (minimum 8) |
| Middleware.GetLocale | src/middleware.ts:33-49 | the NEXT_LOCALE cookie when it names a supported locale, otherwise the negotiated locale; always one of ru, en, es |
| Middleware.PathLocale | src/middleware.ts:92-95 | for a path with a locale prefix, the prefix: the path is '/xx' or starts with '/xx/' |
| Middleware.SplitLocale | src/middleware.ts:95 | the second piece of such a path split on '/' is that locale |
| Middleware.DetectedLocale | src/middleware.ts:92-95 | the path's locale prefix when it has one, otherwise the cookie-then-header choice; always supported |
| Middleware.EveryRootedPathIsPublic | src/middleware.ts:9-74 | every path starting with '/' is public, because '/' is in the public list (line 10) and the test is a prefix test (line 74) |
| Middleware.Localised | src/middleware.ts:125-130 | each localised auth path is '/' + locale + a base auth path |
| Middleware.SetParam | src/middleware.ts:150 | `searchParams.set`: the key is present with the value afterwards, other keys are kept, a new key is appended |
| Middleware.Replace | src/middleware.ts:150 | setting an existing key keeps the key set and holds the new value |
| Middleware.ReplaceLeavesOnePair | src/middleware.ts:150 | after setting an existing key exactly one pair carries it |
| Middleware.ReplaceKeepsOtherPairs | src/middleware.ts:150 | after setting an existing key the pairs with other keys are exactly those of before |
| Middleware.CopyParams | src/middleware.ts:149-151 | copying parameters into an empty URL keeps exactly the same keys |
| Middleware.CopyParamsExact | src/middleware.ts:192-194 | with distinct keys the copy is the very same parameter list |
| Middleware.Gate | src/middleware.ts:164-182 | the login redirect can only fire for a signed-out request to a non-public path, and never fires for a path starting with '/' |
| Middleware.Decide | src/middleware.ts:77-89 | a path containing '.' or under /_next, /api, /images or /favicon passes through |
| Middleware.RootRedirectsToLocale | src/middleware.ts:100-104 | '/' always redirects to '/' + the cookie-then-header locale |
| Middleware.LocaleRootsPass | src/middleware.ts:106-110 | '/ru', '/en' and '/es' pass, signed in or not |
| Middleware.AuthPathsNotSkipped | src/middleware.ts:122-130 | no auth page is mistaken for a static asset |
| Middleware.AuthPathsClassified | src/middleware.ts:122-130 | an auth page is base exactly when it starts with '/auth/'; the others carry a locale prefix |
| Middleware.SignedInLeavesAuthPages | src/middleware.ts:117-137 | a signed-in request for any base or localised login, register, signin or signup page redirects to '/' + the detected locale |
| Middleware.BaseLoginGoesToDefaultLocale | src/middleware.ts:140-142 | signed out, '/auth/login' and '/auth/signin' redirect to '/ru/auth/login' whatever the locale |
| Middleware.BaseRegisterGoesToDefaultLocale | src/middleware.ts:144-154 | signed out, '/auth/register' and '/auth/signup' redirect to '/ru/auth/register' with the query parameters copied |
| Middleware.SignInIrrelevantOutsideAuthPages | src/middleware.ts:160-182 | outside the auth pages the answer does not depend on being signed in: the login redirect is unreachable |
| Middleware.UnprefixedPathMovesUnderLocale | src/middleware.ts:184-198 | any other path without a locale prefix and not under '/auth/' redirects to '/' + locale + path with its query parameters |
| ProfileMenu.LocaleFromPath | src/components/common/ProfileMenu.tsx:30-34 | always ru, en or es; anything but 'ru' only when it is the path's second '/'-piece |
| ProfileMenu.LocaleOfPrefixedPath | src/components/common/ProfileMenu.tsx:30-34 | a path under '/xx' for a supported xx yields xx |
| ProfileMenu.LogoutKeepsLocale | src/components/common/ProfileMenu.tsx:41-43 | the logout target, `/` + locale + `/auth/login`, is a login page in the locale the path was in |
| Middleware.LocalisedAuthPagesServedSignedOut | src/middleware.ts:106-198 | signed out, a login or registration page under a locale prefix passes through unchanged |
| ProfileMenu.LogoutTargetIsServed | src/components/common/ProfileMenu.tsx:41-43 | the middleware lets the signed-out browser through to the logout target |
| ProfileMenu.FirstLetters | src/components/common/ProfileMenu.tsx:50-52 | at most one letter per word |
| ProfileMenu.Initials | src/components/common/ProfileMenu.tsx:46-59 | 'U' with neither name nor email; with a name, a prefix of the upper-cased first letters of its words, cut at 2; with only an email, its upper-cased first character |
| ProfileMenu.SplitJoinedWords | src/components/common/ProfileMenu.tsx:50 | splitting space-joined words on ' ' gives the words back |
| ProfileMenu.InitialsOfWords | src/components/common/ProfileMenu.tsx:49-55 | a name of two or more words gives the upper-cased first letters of its first two |
| ProfileMenu.InitialOfOneWord | src/components/common/ProfileMenu.tsx:49-55 | a one-word name gives its upper-cased first letter |
| ProfileMenu.BlankNameHasNoInitials | src/components/common/ProfileMenu.tsx:47-55 | a name of spaces only is truthy but yields empty initials, not 'U' |
| LanguageSwitcher.CurrentLocaleOfSegment | src/components/common/LanguageSwitcher.tsx:29 | the current locale of '/a…' is its first segment a |
| LanguageSwitcher.RunLength | src/components/common/LanguageSwitcher.tsx:40 | the `[^\/]+` run: the longest '/'-free prefix |
| LanguageSwitcher.Rewrite | src/components/common/LanguageSwitcher.tsx:40 | a path the pattern does not match is unchanged; otherwise the result starts with '/' + locale |
| LanguageSwitcher.RewriteSegment | src/components/common/LanguageSwitcher.tsx:40 | '/a' + rest becomes '/' + locale + rest: the whole first segment is replaced and the rest kept |
| LanguageSwitcher.RewriteTwice | src/components/common/LanguageSwitcher.tsx:40 | switching twice equals switching once to the second locale, so a switch is idempotent |
| LanguageSwitcher.RewriteSetsLocale | src/components/common/LanguageSwitcher.tsx:40 | after the rewrite the first segment, and the middleware's detected locale, are the chosen locale |
| LanguageSwitcher.CookieValue | src/components/common/LanguageSwitcher.tsx:37 | the value read back from a cookie string never contains ';' |
| LanguageSwitcher.CookieCarriesLocale | src/components/common/LanguageSwitcher.tsx:37 | the written cookie carries exactly the locale under NEXT_LOCALE, which the middleware honours |
| LanguageSwitcher.Switcher.HandleLanguageChange | src/components/common/LanguageSwitcher.tsx:31-47 | nothing for the current locale; otherwise the cookie is written, the rewritten path pushed and the page refreshed, loading ending false |
| LanguageSwitcher.ChangeReachesLocale | src/components/common/LanguageSwitcher.tsx:31-47 | after a switch to a supported locale the next request is served in that locale, from the path or, for '/', from the cookie |
| Selection.HasIffInIds | src/components/publics/filterForm/RegionSelect.tsx:57 | the `some(r => r.id === id)` membership test holds exactly when the id is among the selection's ids |
| Selection.Without | src/components/publics/filterForm/RegionSelect.tsx:66-68 | removing by id keeps exactly the entries with another id, so the id is gone and every other id stays |
| Selection.Toggle | src/components/publics/filterForm/RegionSelect.tsx:56-64 | toggling flips whether the item's id is selected, removes it (shrinking the list) when present and appends it at the end when absent |
| Selection.ToggleTwice | src/components/publics/filterForm/PublicSelectorButton.tsx:116-124 | toggling an unselected item twice gives back the original selection |
| Selection.WithoutTwice | src/components/publics/filterForm/CitySelect.tsx:83-85 | removing the same id twice is the same as removing it once |
| Selection.WithoutAbsent | src/components/publics/filterForm/ActivitySelect.tsx:65-67 | removing an id that is not selected leaves the selection unchanged |
| Selection.WithoutKeepsDistinct | src/components/publics/filterForm/ActivitySelect.tsx:65-67 | removal never introduces a repeated id |
| Selection.ToggleKeepsDistinct | src/components/publics/filterForm/ActivitySelect.tsx:55-63 | toggling keeps the selection free of repeated ids, since an item is appended only when its id is absent |
| Selection.DistinctIdsCount | src/components/publics/PublicResultsTable.tsx:46 | with distinct ids the number of selected rows equals the number of selected ids |
| Selection.SameLengthIsEverything | src/components/publics/filterForm/PublicSelectorButton.tsx:163 | for a distinct selection drawn from a distinct catalogue, equal lengths mean every catalogue id is selected, and conversely |
| Selection.TotalConcat | src/components/publics/PublicResultsTable.tsx:46-47 | the summed subscribers or cost of two concatenated selections is the sum of the two totals |
| Selection.ToggleTotal | src/components/publics/PublicResultsTable.tsx:35-47 | adding a public raises the footer total by exactly its value; removing one never raises it |
| Selection.FilterTotal | src/components/publics/PublicResultsTable.tsx:35-47 | a filtered selection never totals more than the original |
| Selection.TriggerLabel | src/components/publics/filterForm/RegionSelect.tsx:77-81 | the region, activity and city triggers show their placeholder for an empty selection and otherwise `Выбрано: ` followed by digits that parse back to the count; a placeholder that does not start like a count is shown exactly for the empty selection |
| Selection.PlaceholdersAreNoCounts | src/components/publics/filterForm/RegionSelect.tsx:78 | each of the region, activity and city placeholders is shown exactly when nothing is selected |
| RegionSelect.RegionIdsDistinct | src/components/publics/filterForm/RegionSelect.tsx:14-31 | the sixteen regions have distinct ids |
| ActivitySelect.ActivityIdsDistinct | src/components/publics/filterForm/ActivitySelect.tsx:14-30 | the activity catalogue has distinct ids |
| CitySelect.CitiesFor | src/components/publics/filterForm/CitySelect.tsx:64-71 | with no region selected every city is listed; otherwise exactly the cities whose region is selected |
| CitySelect.ListedRegionsHaveCities | src/components/publics/filterForm/CitySelect.tsx:16-37 | every region of the catalogue has at least one city, so a selection of catalogue regions never lists no city |
| CitySelect.CityPicker.constructor | src/components/publics/filterForm/CitySelect.tsx:45-47 | the filtered list starts empty, before the region effect has run |
| CitySelect.CityPicker.SyncWithRegions | src/components/publics/filterForm/CitySelect.tsx:64-71 | the region effect replaces the filtered list by the cities of the selected regions and leaves the selected cities alone |
| CitySelect.CityPicker.HandleToggleCity | src/components/publics/filterForm/CitySelect.tsx:73-81 | a click toggles the city in the selection and keeps its ids distinct |
| CitySelect.CityPicker.RemoveCity | src/components/publics/filterForm/CitySelect.tsx:83-85 | the chip's cross removes the city, and nothing else, from the selection |
| CitySelect.CityPicker.ListMessage | src/components/publics/filterForm/CitySelect.tsx:126-149 | a message replaces the list exactly when the filtered list is empty: the prompt to choose a region when none is selected, otherwise the note that the selected regions have no cities |
| PublicSelectorButton.CatalogueIdsDistinct | src/components/publics/filterForm/PublicSelectorButton.tsx:26-91 | the eight catalogue publics have distinct ids |
| PublicSelectorButton.Trigger | src/components/publics/filterForm/PublicSelectorButton.tsx:143-146 | the trigger shows the placeholder exactly when the form has no public selected, otherwise their number |
| PublicSelectorButton.SelectorDialog.constructor | src/components/publics/filterForm/PublicSelectorButton.tsx:102-103 | the local copy starts as the form's selection with the dialog closed |
| PublicSelectorButton.SelectorDialog.AllChecked | src/components/publics/filterForm/PublicSelectorButton.tsx:163 | the header checkbox's length test is checked exactly when every catalogue public is selected |
| PublicSelectorButton.SelectorDialog.SelectAll | src/components/publics/filterForm/PublicSelectorButton.tsx:106-114 | a full selection is cleared, any other becomes the whole catalogue, and the header checkbox flips |
| PublicSelectorButton.SelectorDialog.TogglePublic | src/components/publics/filterForm/PublicSelectorButton.tsx:116-124 | a row click toggles the public in the local selection, which stays a distinct subset of the catalogue |
| PublicSelectorButton.SelectorDialog.Submit | src/components/publics/filterForm/PublicSelectorButton.tsx:126-129 | submitting hands the local selection to the form unchanged and closes the dialog |
| PublicSelectorButton.CatalogueTotals | src/components/publics/filterForm/PublicSelectorButton.tsx:132-133 | selecting the whole catalogue totals 1 244 000 subscribers and 615 000 tenge per post |
| PublicResultsTable.ResultsTable.constructor | src/components/publics/PublicResultsTable.tsx:14-19 | the table starts with the given rows and selection and the header unchecked |
| PublicResultsTable.ResultsTable.SyncSelectAll | src/components/publics/PublicResultsTable.tsx:21-24 | the effect sets the header checkbox exactly when the selection is as long as the list |
| PublicResultsTable.ResultsTable.ToggleSelectAll | src/components/publics/PublicResultsTable.tsx:26-33 | the header clears a checked table or selects every row of an unchecked one, flips, and stays in sync with the selection when the list is non-empty |
| PublicResultsTable.ResultsTable.TogglePublic | src/components/publics/PublicResultsTable.tsx:35-43 | a row checkbox toggles that public and leaves the header state to the effect |
| TopicInput.TopicField.constructor | src/components/publics/filterForm/TopicInput.tsx:13-14 | the draft starts empty over the form's topics |
| TopicInput.TopicField.SetInput | src/components/publics/filterForm/TopicInput.tsx:38 | typing replaces the draft and leaves the topics alone |
| TopicInput.TopicField.HandleKeyDown | src/components/publics/filterForm/TopicInput.tsx:16-26 | Enter or a comma appends the trimmed draft and clears it when that is non-empty and new; any other key, a blank draft or a repeated topic changes nothing, so the topics stay distinct, trimmed and non-empty |
| TopicInput.TopicField.RemoveTopic | src/components/publics/filterForm/TopicInput.tsx:28-30 | removing a topic drops it and keeps every other topic |
| CostInput.Shown | src/components/publics/filterForm/CostInput.tsx:17-20 | zero is shown as the empty field; any other amount as decimal digits that parse back to it |
| CostInput.Entered | src/components/publics/filterForm/CostInput.tsx:29 | an empty digit string reads as zero, any other as its decimal value |
| CostInput.EnteredShown | src/components/publics/filterForm/CostInput.tsx:17-31 | re-entering what the field shows gives back the amount |
| CostInput.ShownEntered | src/components/publics/filterForm/CostInput.tsx:17-31 | a digit string without a leading zero is shown again exactly as typed once the form echoes it back |
| CostInput.CostField.constructor | src/components/publics/filterForm/CostInput.tsx:17-45 | the field starts by showing the form's amount, with the `тенге` suffix exactly when that amount is not zero |
| CostInput.CostField.HandleChange | src/components/publics/filterForm/CostInput.tsx:23-31 | an edit keeps only the digits on display and reports their value (zero when none) to the form |
| CostInput.CostField.SyncWithValue | src/components/publics/filterForm/CostInput.tsx:19-45 | a new amount from the form replaces the display and reports nothing; the suffix shows exactly when the amount is not zero |
| PublicSelector.OnlySmallActiveInitially | src/components/publics/PublicSelector.tsx:135-139 | of the three size categories only `small` starts active |
| PublicSelector.Toggled | src/components/publics/PublicSelector.tsx:184-189 | toggling a category flips its `active` flag, keeps its bounds and leaves every other category as it was |
| PublicSelector.ToggledTwice | src/components/publics/PublicSelector.tsx:184-189 | toggling the same category twice restores the map |
| PublicSelector.WithoutCommas | src/components/publics/PublicSelector.tsx:299 | the comma-stripped text keeps every other character and no comma |
| PublicSelector.FollowersRoundTrip | src/components/publics/PublicSelector.tsx:298-299 | a count typed with thousands commas reads back as that count |
| PublicSelector.NoBreakSpaceGroupingReadsLeadingGroup | src/components/publics/PublicSelector.tsx:298-299 | a count grouped with a no-break space, as a Russian locale displays it, reads back as its leading group only |
| PublicSelector.CostRoundTrip | src/components/publics/PublicSelector.tsx:310-311 | a cost shown with the `тенге` suffix reads back as that cost |
| PublicSelector.SelectorPage.constructor | src/components/publics/PublicSelector.tsx:133-139 | the page starts with 2 568 125 followers, a cost of 580 000 and the initial categories |
| PublicSelector.SelectorPage.ToggleCategory | src/components/publics/PublicSelector.tsx:184-189 | clicking a category toggles it and nothing else |
| PublicSelector.SelectorPage.FollowersChanged | src/components/publics/PublicSelector.tsx:299 | an edit of the followers field stores what it reads and nothing else |
| PublicSelector.SelectorPage.CostChanged | src/components/publics/PublicSelector.tsx:311 | an edit of the cost field stores the value of its digits (zero when none) and nothing else |
| Carousel.JsRem | src/components/common/Carousel.tsx:24-30 | the truncating remainder agrees with the mathematical one on non-negative operands and is never positive on negative ones |
| Carousel.NextIndex | src/components/common/Carousel.tsx:24-26 | the next slide stays in range and wraps from the last slide to the first |
| Carousel.PrevIndex | src/components/common/Carousel.tsx:28-30 | the previous slide stays in range and wraps from the first slide to the last |
| Carousel.PrevUndoesNext | src/components/common/Carousel.tsx:24-30 | the previous and next buttons undo each other |
| Carousel.AdvanceWithinRound | src/components/common/Carousel.tsx:33-41 | k timer ticks (k at most the slide count) move k slides forward, wrapping once past the end |
| Carousel.FullRound | src/components/common/Carousel.tsx:33-41 | as many ticks as slides bring the carousel back to the same slide |
| Carousel.Slides.constructor | src/components/common/Carousel.tsx:18-20 | the carousel starts on the first slide, auto-playing exactly when the interval is positive |
| Carousel.Slides.Next | src/components/common/Carousel.tsx:24-26 | the next button moves to the next slide, wrapping |
| Carousel.Slides.Prev | src/components/common/Carousel.tsx:28-30 | the previous button moves to the previous slide, wrapping |
| Carousel.Slides.GoTo | src/components/common/Carousel.tsx:93 | an indicator jumps straight to its slide |
| Carousel.Slides.Tick | src/components/common/Carousel.tsx:36-38 | a timer tick advances one slide and keeps auto-play on |
| Carousel.Slides.Pause | src/components/common/Carousel.tsx:33-44 | hovering stops auto-play, so the effect installs no interval, and keeps the slide |
| Carousel.Slides.Resume | src/components/common/Carousel.tsx:33-45 | leaving resumes auto-play, and with it the interval, exactly when the interval is positive |
| AppStore.Store.constructor | src/store/useAppStore.ts:15-17 | the store starts with the system theme and the sidebar closed |
| AppStore.Store.SetTheme | src/store/useAppStore.ts:16 | setting the theme changes only the theme |
| AppStore.Store.ToggleSidebar | src/store/useAppStore.ts:18 | toggling flips only the sidebar flag |
| AppStore.Store.SetSidebarOpen | src/store/useAppStore.ts:19 | setting the sidebar flag changes only that flag |
| AppStore.Store.Reload | src/store/useAppStore.ts:12-26 | after a reload the theme survives and the sidebar is closed again |
| AppStore.ToggleTwice | src/store/useAppStore.ts:18 | toggling the sidebar twice restores the store |
| Sidebar.ParentHighlightedOnChildPage | src/components/layout/Sidebar.tsx:103-110 | on the page of any of its linked children a parent item is highlighted |
| Sidebar.Toggled | src/components/layout/Sidebar.tsx:89-94 | toggling a submenu flips whether it is open (a missing entry counts as closed) and no other submenu |
| Sidebar.ToggledTwice | src/components/layout/Sidebar.tsx:89-94 | toggling a submenu twice leaves every submenu as open as before |
| Sidebar.Opened | src/components/layout/Sidebar.tsx:185-189 | opening a set of submenus opens exactly those in addition to the ones already open |
| Sidebar.OpenedOneMore | src/components/layout/Sidebar.tsx:181-192 | the effect's one-at-a-time updates add up to opening the whole set |
| Sidebar.ParentIdsExact | src/components/layout/Sidebar.tsx:182-190 | an item is opened for a path exactly when one of its children links to that path |
| Sidebar.RenderKind | src/components/layout/Sidebar.tsx:138-173 | a top-level item with children is expandable, and otherwise a disabled item or one without a link is plain text and an enabled one with a link is a link to its own href |
| Sidebar.VisibleChildren | src/components/layout/Sidebar.tsx:148-154 | children are shown, all of them, exactly when the submenu is open |
| Sidebar.SidebarState.constructor | src/components/layout/Sidebar.tsx:84-87 | only the push-notifications submenu starts open |
| Sidebar.SidebarState.ToggleSubmenu | src/components/layout/Sidebar.tsx:89-94 | a click on an expandable item toggles its submenu |
| Sidebar.SidebarState.ExpandForPath | src/components/layout/Sidebar.tsx:177-193 | with a path, every item with a child linking to it is opened and nothing is closed; without one, nothing changes |
| Text.KeepDigitsIdempotent | src/components/publics/filterForm/CostInput.tsx:26 | stripping non-digits from already sanitised text changes nothing |
| Text.TrimmedHasNoOuterSpace | src/components/publics/filterForm/TopicInput.tsx:20 | a trimmed topic neither starts nor ends with JavaScript whitespace |
| Text.TrimEmptyIffAllSpace | src/components/publics/filterForm/TopicInput.tsx:20-21 | a draft trims to the empty topic exactly when it consists of whitespace only |
| Text.ParseIntNatToString | src/components/publics/filterForm/CostInput.tsx:29 | `parseInt` reads the decimal rendering of any amount back as that amount |
| Text.ContainsIgnoringCaseWeaker | src/lib/db/repositories/notes.ts:77 | text that contains the query verbatim also matches it ignoring case |
| Text.SplitJoin | src/components/common/ProfileMenu.tsx:50 | splitting a name at spaces loses nothing: joining the pieces with spaces gives the name back |

Where the code and the accompanying description disagree, the model follows
the code:

- `rememberMe` in the login schema is written `z.boolean().default(false).optional()`.
  The outer `optional` lets an absent value through before the default is
  consulted, so an absent `rememberMe` stays absent rather than becoming
  `false` (`FormSchema.LoginSchema`).
- The registration endpoint accepts passwords of 6 characters or more, while
  the `createUser` action and the sign-up form demand 8
  (`RegisterRoute.RouteAcceptsWhatActionRefuses`).
- `isPublicPath` is true for every path starting with `/`, because `/` is in
  the public list and the test is `startsWith`. The redirect of
  unauthenticated visitors to the login page is therefore never taken
  (`Middleware.EveryRootedPathIsPublic`).
- The collection tree is described as checked for cycles whenever a
  collection is moved, but `moveToParent` accepts a collection as its own
  parent (see Findings), and `update` sets any parentId without a check,
  the row's own id or a descendant's included
  (`CollectionsRepository.UpdateCanCloseCycle`). Acyclicity is therefore a
  precondition of the operations that walk the tree, not an invariant of
  the store.
- The followers field strips commas from its own `toLocaleString()`
  display, which assumes the comma grouping of an English locale
  (`PublicSelector.FollowersRoundTrip`). The display follows the browser's
  locale: under Russian the groups are separated by a no-break space, and
  the field then reads back only the leading group
  (`PublicSelector.NoBreakSpaceGroupingReadsLeadingGroup`).

Behaviours of the code that the model reproduces and that a reader may not
expect:

- `PublicSelectorButton` copies the form's selection into its local state
  only when it is mounted; later changes of the prop are not reflected.
- `CitySelect` lists no city until its effect has run, and a selected city
  stays selected when its region is deselected.
- In `PublicResultsTable`, clicking the header of an empty list checks it
  and empties the (already empty) selection; the effect then finds
  `0 == 0` and keeps it checked.
- The followers field of the publics page reads its number with `parseInt`,
  so a sign and a `0x` prefix are honoured.
- The language switcher replaces whatever the first path segment is, so
  `/dashboard` becomes `/ru` when Russian is chosen; a path with no
  non-slash first segment is left unchanged.
- A user name made only of spaces produces empty initials, not `U`.
- The language switcher's menu offers Russian only (`LanguageSwitcher.MenuLocales`); English and Spanish are commented out there, although the middleware accepts all three.

## Left out

- Migrations, reset and setup scripts, the connection pool, the Supabase client and the transaction helper: operational plumbing with no behaviour of the core.
- `getActivityFrequencyByType` (src/lib/db/repositories/activity-log.ts:77-102): raw SQL with `DATE_TRUNC` and calendar arithmetic.
- `users.getAll` and the repository re-export file: no behaviour beyond a plain select or a re-export.
- Column width limits (`varchar(n)`), uuid generation and `defaultNow()`: ids are natural numbers, fresh ids are one more than the largest in use, and the clock is a parameter.
- `LIKE`/`ILIKE` wildcard escaping and collation: a pattern is plain substring containment (for `ILIKE`, containment after lower-casing ASCII and Cyrillic letters), and text columns order by character code.
- Concurrency: the read-then-write race of the favourite and archive toggles under concurrent requests; every operation is one atomic step.
- External services are parameters or abstract outcomes: next-auth's `getToken` and `signIn`, Accept-Language negotiation (section 12.5.4 of RFC 9110), Supabase `auth.admin.createUser`, zod's e-mail regular expression (the `isEmail` parameter of `Zod.Failures`), router navigation, `cookies()` and i18next.
- TagsRepository.ConfidenceText: the confidence score is a natural number written in decimal; fractional scores and the `numeric(4,2)` rounding of the column are not modelled, and neither is the overflow error the database raises for a score of 100 or more (four digits, two after the point), so `TagsRepository.AddTagToLink` stores such a score where the insert would fail.
- `toLocaleString` output in the publics page and the selector footers: the model stores and sums the numbers and does not format them; for the followers field's read-back, a grouped display is written out as a string with its separators.
- LinksRepository.Update and CollectionsRepository.Update: the patch cannot rewrite the id; `Partial` of the insert type allows it, and a new id that collides with another row would fail the primary key, an error path the model does not have.
- TagsRepository.Update and TagsRepository.Patched: the patch cannot rewrite the id, for the same reason; owner and createdAt are modelled.
- UsersRepository.Update and UsersRepository.Patched: the patch cannot rewrite the id, for the same reason; createdAt is modelled.
- The `view_preferences` table and the auth tables re-exported by the schema are not part of this model: no core operation reads or writes them, so `Schema.DeleteUser` and `Schema.DeleteUserCascade` speak only of the modelled tables and leave out the cascade from a user to their view preferences.
- The nullable boolean columns `links.is_archived`, `links.is_favorite`, `collections.is_private` and `tags.is_ai_generated` are modelled as `bool`: their defaults fill every insert, and an update cannot set them to NULL in the model (LinksRepository.Update, CollectionsRepository.Update and TagsRepository.Update take a boolean or nothing for them), so a NULL flag, which the listing filters would then match neither as true nor as false, is not modelled.
- Referential integrity is not an invariant of the model's store: each write that sets a referencing column checks the referenced row, and the deletes cascade, but `Schema.Consistent` itself states only the uniqueness of keys and e-mails.
- Number parsing (`Text.ParseInt`) yields unbounded integers; the precision loss of JavaScript numbers for very long digit strings is not modelled.
- Case mapping (`Text.Upper`, `Text.Lower`) covers ASCII and the Cyrillic letters U+0400 to U+045F; letters of other scripts are left unchanged.
- ProfileMenu.Initials: a name's characters are code points, so a character outside the Basic Multilingual Plane is one initial where JavaScript would take half of a surrogate pair.
- Carousel.Slides.constructor: requires at least one slide; with none, the source's `% 0` makes the index NaN.
- PublicSelector.SelectorPage.ToggleCategory: requires the key to be one of the page's categories, the only keys its buttons pass; for any other key the source throws a TypeError, since it reads `active` of the missing `prev[key]`.
- CitySelect.CityPicker.constructor, PublicSelectorButton.SelectorDialog.constructor and TopicInput.TopicField.constructor: require the selection handed in to be free of repeated ids (and, for topics, trimmed and non-empty), as every selection these components produce is; PublicSelectorButton.SelectorDialog.constructor also requires every selected public to be one of the catalogue's, since the dialog's only source of publics is that catalogue.
- Open and closed flags of dropdowns and dialogs, click-outside handlers, the `isPending` flag of `useTransition`, and all rendering beyond the values shown in triggers and footers.
- The sidebar's menu data, src/constants/navigation.ts, is not part of this model: the menu is a parameter of the operations that read it.
- `PublicSelectorTabs`, the landing page, `LinkCard`, `ContentPreview`, `ContentUploadSection`, `LotSelector`, `SortSelector` and the translation files: rendering, mock-data wrappers, URL parsing, calendar and colour arithmetic outside the modelled core.

## Findings

| source | as written | input that shows it | evidently intended | confidence | as-written member | corrected member |
|---|---|---|---|---|---|---|
| src/lib/db/repositories/collections.ts:155-167 | `moveToParent` walks the ancestors of the new parent looking for the moved collection, but starts from the new parent's parent, so it never compares the new parent itself with the moved collection | `moveToParent(c, c)` for any existing collection `c`: the walk finds no cycle and `c` becomes its own parent | a collection cannot become its own parent, as it cannot become a descendant of itself | not executed | CollectionsRepository.MoveToSelfAccepted | CollectionsRepository.MoveToParentGuarded |
