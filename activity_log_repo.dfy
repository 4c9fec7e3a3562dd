/** The activity-log repository: an append-only record of what each user did, read back newest first. */
module ActivityLogRepository {
  import opened Wrappers
  import opened Schema
  import opened Store
  import Seqs

  const DefaultLimit: nat := 20

  /**
   * `logActivity(data)`: appends one row carrying the user, the action
   * type, the entity id and the metadata (entity_id references nothing, so
   * only the user is checked), and returns the inserted rows.
   */
  method LogActivity(db: Database, userId: Id, actionType: ActionType, entityId: Option<Id>,
                     metadata: Option<Json>, now: Time) returns (r: Result<seq<Activity>, string>)
    requires Consistent(db.tables)
    modifies db
    ensures Consistent(db.tables)
    ensures r.Ok? <==> UserExists(old(db.tables), userId)
    ensures r.Err? ==> r.error == ForeignKeyViolation && db.tables == old(db.tables)
    ensures r.Ok? ==>
      && |r.value| == 1
      && r.value[0].userId == userId && r.value[0].actionType == actionType
      && r.value[0].entityId == entityId && r.value[0].metadata == metadata && r.value[0].createdAt == now
      && (forall a :: a in old(db.tables.activityLog) ==> a.id != r.value[0].id)
      && db.tables == old(db.tables).(activityLog := old(db.tables.activityLog) + r.value)
  {
    var t := db.tables;
    if !UserExists(t, userId) {
      return Err(ForeignKeyViolation);
    }
    var row := Activity(NextId(t.activityLog, ActivityKey), userId, actionType, entityId, metadata, now);
    AppendFresh(t.activityLog, ActivityKey, row);
    db.tables := t.(activityLog := t.activityLog + [row]);
    return Ok([row]);
  }

  function ByCreatedAt(a: Activity): seq<int> { [a.createdAt] }

  /**
   * `rows` newest first, with `offset` skipped and min(limit, n - offset)
   * of the n rows kept; on the first page no row left out is newer than
   * the last row shown.
   */
  function NewestPage(rows: seq<Activity>, limit: nat, offset: nat): (r: seq<Activity>)
    ensures |r| == if offset >= |rows| then 0 else Seqs.Min(limit, |rows| - offset)
    ensures multiset(r) <= multiset(rows)
    ensures forall a :: a in r ==> a in rows
    ensures Seqs.SortedBy(r, ByCreatedAt, true)
    ensures offset == 0 && r != [] ==>
      forall a :: a in rows && a !in r ==> r[|r| - 1].createdAt >= a.createdAt
  {
    var r := Seqs.SortedWindow(rows, ByCreatedAt, true, offset, limit);
    NewestFirst(rows, r, offset, limit);
    r
  }

  lemma NewestFirst(rows: seq<Activity>, r: seq<Activity>, offset: nat, limit: nat)
    requires r == Seqs.SortedWindow(rows, ByCreatedAt, true, offset, limit)
    ensures offset == 0 && r != [] ==>
      forall a :: a in rows && a !in r ==> r[|r| - 1].createdAt >= a.createdAt
  {
    forall a | offset == 0 && r != [] && a in rows && a !in r
      ensures r[|r| - 1].createdAt >= a.createdAt
    {
      Seqs.DescendingSingle(r[|r| - 1].createdAt, a.createdAt);
    }
  }

  /** Pages at successive offsets tile the newest-first rows. */
  lemma NewestPagesFollowOn(rows: seq<Activity>, offset: nat, limit: nat)
    ensures NewestPage(rows, offset, 0) + NewestPage(rows, limit, offset) == NewestPage(rows, offset + limit, 0)
  {
    assert NewestPage(rows, offset, 0) == Seqs.SortedWindow(rows, ByCreatedAt, true, 0, offset);
    assert NewestPage(rows, limit, offset) == Seqs.SortedWindow(rows, ByCreatedAt, true, offset, limit);
    assert NewestPage(rows, offset + limit, 0) == Seqs.SortedWindow(rows, ByCreatedAt, true, 0, offset + limit);
    Seqs.SortedWindowsTile(rows, ByCreatedAt, true, 0, offset, limit);
  }

  /** The rows of the user, of the given action type when one is given, in scan order. */
  function UserRows(t: Tables, userId: Id, actionType: Option<ActionType>): (r: seq<Activity>)
    ensures forall a :: a in r <==>
      a in t.activityLog && a.userId == userId && (actionType.Some? ==> a.actionType == actionType.value)
  {
    Seqs.Filter(t.activityLog, (a: Activity) => a.userId == userId && (actionType.Some? ==> a.actionType == actionType.value))
  }

  /**
   * `getRecentActivities(userId, limit = 20, offset = 0)`: a newest-first
   * page of the user's rows, as many as the limit allows after the offset.
   */
  function GetRecentActivities(t: Tables, userId: Id, limit: Option<nat>, offset: Option<nat>): (r: seq<Activity>)
    ensures var n := |UserRows(t, userId, None)|;
      |r| == if offset.GetOr(0) >= n then 0 else Seqs.Min(limit.GetOr(DefaultLimit), n - offset.GetOr(0))
    ensures forall a :: a in r ==> a in t.activityLog && a.userId == userId
    ensures offset.GetOr(0) == 0 && r != [] ==>
      forall a :: a in UserRows(t, userId, None) && a !in r ==> r[|r| - 1].createdAt >= a.createdAt
    ensures Seqs.SortedBy(r, ByCreatedAt, true)
  {
    var rows := UserRows(t, userId, None);
    var r := NewestPage(rows, limit.GetOr(DefaultLimit), offset.GetOr(0));
    r
  }

  /** `getActivitiesByType(userId, actionType, limit = 20, offset = 0)`: the same, of one action type. */
  function GetActivitiesByType(t: Tables, userId: Id, actionType: ActionType, limit: Option<nat>, offset: Option<nat>)
    : (r: seq<Activity>)
    ensures var n := |UserRows(t, userId, Some(actionType))|;
      |r| == if offset.GetOr(0) >= n then 0 else Seqs.Min(limit.GetOr(DefaultLimit), n - offset.GetOr(0))
    ensures forall a :: a in r ==> a in t.activityLog && a.userId == userId && a.actionType == actionType
    ensures offset.GetOr(0) == 0 && r != [] ==>
      forall a :: a in t.activityLog && a.userId == userId && a.actionType == actionType && a !in r ==>
        r[|r| - 1].createdAt >= a.createdAt
    ensures Seqs.SortedBy(r, ByCreatedAt, true)
  {
    var r := NewestPage(UserRows(t, userId, Some(actionType)), limit.GetOr(DefaultLimit), offset.GetOr(0));
    r
  }

  /**
   * `getActivitiesByDateRange(userId, startDate, endDate)`: every row of
   * the user with `startDate <= createdAt <= endDate` (BETWEEN includes
   * both bounds), newest first, with no limit.
   */
  function GetActivitiesByDateRange(t: Tables, userId: Id, startDate: Time, endDate: Time): (r: seq<Activity>)
    ensures forall a :: a in r <==>
      a in t.activityLog && a.userId == userId && startDate <= a.createdAt <= endDate
    ensures multiset(r) == multiset(Seqs.Filter(t.activityLog,
      (a: Activity) => a.userId == userId && startDate <= a.createdAt <= endDate))
    ensures Seqs.SortedBy(r, ByCreatedAt, true)
  {
    var rows := Seqs.Filter(t.activityLog, (a: Activity) => a.userId == userId && startDate <= a.createdAt <= endDate);
    Seqs.SortBySorted(rows, ByCreatedAt, true);
    Seqs.SortBySameRows(rows, ByCreatedAt, true);
    Seqs.SortBy(rows, ByCreatedAt, true)
  }

  /** A row logged exactly at either bound of the range is reported; a range with start after end is empty. */
  lemma DateRangeBounds(t: Tables, a: Activity, startDate: Time, endDate: Time)
    requires a in t.activityLog && (a.createdAt == startDate || a.createdAt == endDate)
    ensures startDate <= endDate ==> a in GetActivitiesByDateRange(t, a.userId, startDate, endDate)
    ensures endDate < startDate ==> GetActivitiesByDateRange(t, a.userId, startDate, endDate) == []
  {
    var r := GetActivitiesByDateRange(t, a.userId, startDate, endDate);
    if endDate < startDate && r != [] {
      Seqs.HeadIsMember(r);
    }
  }

  /** A row of the activity_log ⋈ users join. */
  datatype ActivityWithUser = ActivityWithUser(activity: Activity, user: User)

  function JoinedByCreatedAt(x: ActivityWithUser): seq<int> { [x.activity.createdAt] }

  /** The activity_log ⋈ users rows about the entity, in scan order. */
  function EntityRows(t: Tables, entityId: Id): (r: seq<ActivityWithUser>)
    ensures forall x :: x in r <==>
      x.activity in t.activityLog && x.activity.entityId == Some(entityId)
      && x.user in t.users && x.user.id == x.activity.userId
  {
    var j := Seqs.Join(Seqs.Filter(t.activityLog, (a: Activity) => a.entityId == Some(entityId)),
                       t.users, (a: Activity, u: User) => a.userId == u.id);
    var r := Seqs.Map(j, (q: (Activity, User)) => ActivityWithUser(q.0, q.1));
    assert forall x: ActivityWithUser :: x in r <== x.activity in t.activityLog && x.activity.entityId == Some(entityId)
      && x.user in t.users && x.user.id == x.activity.userId by {
      forall x: ActivityWithUser | x.activity in t.activityLog && x.activity.entityId == Some(entityId)
        && x.user in t.users && x.user.id == x.activity.userId
        ensures x in r
      {
        assert (x.activity, x.user) in j;
      }
    }
    r
  }

  lemma EntityPageNewestFirst(rows: seq<ActivityWithUser>, r: seq<ActivityWithUser>, offset: nat, limit: nat)
    requires r == Seqs.SortedWindow(rows, JoinedByCreatedAt, true, offset, limit)
    ensures offset == 0 && r != [] ==>
      forall x :: x in rows && x !in r ==> r[|r| - 1].activity.createdAt >= x.activity.createdAt
  {
    forall x | offset == 0 && r != [] && x in rows && x !in r
      ensures r[|r| - 1].activity.createdAt >= x.activity.createdAt
    {
      Seqs.DescendingSingle(r[|r| - 1].activity.createdAt, x.activity.createdAt);
    }
  }

  /**
   * `getActivitiesForEntity(entityId, limit = 20, offset = 0)`: a
   * newest-first page of the entity's rows with their users, as many as
   * the limit allows after the offset.
   */
  function GetActivitiesForEntity(t: Tables, entityId: Id, limit: Option<nat>, offset: Option<nat>)
    : (r: seq<ActivityWithUser>)
    ensures var n := |EntityRows(t, entityId)|;
      |r| == if offset.GetOr(0) >= n then 0 else Seqs.Min(limit.GetOr(DefaultLimit), n - offset.GetOr(0))
    ensures forall x :: x in r ==> x in EntityRows(t, entityId)
    ensures offset.GetOr(0) == 0 && r != [] ==>
      forall x :: x in EntityRows(t, entityId) && x !in r ==> r[|r| - 1].activity.createdAt >= x.activity.createdAt
    ensures Seqs.SortedBy(r, JoinedByCreatedAt, true)
  {
    var rows := EntityRows(t, entityId);
    var r := Seqs.SortedWindow(rows, JoinedByCreatedAt, true, offset.GetOr(0), limit.GetOr(DefaultLimit));
    EntityPageNewestFirst(rows, r, offset.GetOr(0), limit.GetOr(DefaultLimit));
    r
  }

  /**
   * `deleteOldActivities(date)`: removes exactly the rows, of every user,
   * logged strictly before `date`; a row logged at `date` stays.
   */
  method DeleteOldActivities(db: Database, date: Time)
    requires Consistent(db.tables)
    modifies db
    ensures Consistent(db.tables)
    ensures forall a :: a in db.tables.activityLog <==> a in old(db.tables.activityLog) && date <= a.createdAt
    ensures db.tables.(activityLog := old(db.tables.activityLog)) == old(db.tables)
  {
    var t := db.tables;
    var keep := (a: Activity) => !(a.createdAt < date);
    Seqs.FilterKeysDistinct(t.activityLog, keep, ActivityKey);
    db.tables := t.(activityLog := Seqs.Filter(t.activityLog, keep));
  }
}
