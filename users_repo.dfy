/** The users repository: account rows, looked up by id or by their unique email. */
module UsersRepository {
  import opened Wrappers
  import opened Schema
  import opened Store
  import Seqs

  /** `getById(id)`: the user with that id, or null. */
  function GetById(t: Tables, id: Id): (r: Option<User>)
    ensures r.Some? ==> r.value in t.users && r.value.id == id
    ensures r.None? <==> forall u :: u in t.users ==> u.id != id
  {
    Seqs.FindByKey(t.users, UserKey, id)
  }

  /** `getByEmail(email)`: the user with that email, or null. */
  function GetByEmail(t: Tables, email: string): (r: Option<User>)
    ensures r.Some? ==> r.value in t.users && r.value.email == email
    ensures r.None? <==> forall u :: u in t.users ==> u.email != email
  {
    Seqs.FindByKey(t.users, UserEmail, email)
  }

  /** Emails are unique, so `getByEmail` finds the one user with that email. */
  lemma GetByEmailUnique(t: Tables, u: User)
    requires Consistent(t) && u in t.users
    ensures GetByEmail(t, u.email) == Some(u)
  {
    Seqs.FindByKeyUnique(t.users, UserEmail, u);
  }

  /** The columns a new account supplies; the others are NULL or the clock's time. */
  datatype NewUser = NewUser(name: Option<string>, email: string, password: Option<string>, image: Option<string>)

  /**
   * `create(data)`: inserts one user and returns the inserted row; the
   * UNIQUE constraint on email rejects an email already in use.
   */
  method Create(db: Database, data: NewUser, now: Time) returns (r: Result<User, string>)
    requires Consistent(db.tables)
    modifies db
    ensures Consistent(db.tables)
    ensures r.Err? <==> GetByEmail(old(db.tables), data.email).Some?
    ensures r.Err? ==> r.error == UniqueViolation && db.tables == old(db.tables)
    ensures r.Ok? ==>
      && db.tables == old(db.tables).(users := old(db.tables.users) + [r.value])
      && r.value.name == data.name && r.value.email == data.email && r.value.password == data.password
      && r.value.image == data.image && r.value.emailVerified.None?
      && r.value.createdAt == now && r.value.updatedAt == now
      && GetById(db.tables, r.value.id) == Some(r.value)
      && GetByEmail(db.tables, data.email) == Some(r.value)
  {
    var t := db.tables;
    if GetByEmail(t, data.email).Some? {
      return Err(UniqueViolation);
    }
    var row := User(NextId(t.users, UserKey), data.name, data.email, None, data.image, data.password, now, now);
    AppendFresh(t.users, UserKey, row);
    AppendFresh(t.users, UserEmail, row);
    db.tables := t.(users := t.users + [row]);
    Seqs.FindByKeyUnique(db.tables.users, UserKey, row);
    Seqs.FindByKeyUnique(db.tables.users, UserEmail, row);
    return Ok(row);
  }

  /** The columns an update may set; for the nullable ones, `Some(None)` sets NULL. */
  datatype UserPatch = UserPatch(
    name: Option<Option<string>>, email: Option<string>, emailVerified: Option<Option<Time>>,
    image: Option<Option<string>>, password: Option<Option<string>>, createdAt: Option<Time>)

  /** `{ ...row, ...data, updatedAt: now }` */
  function Patched(u: User, p: UserPatch, now: Time): (r: User)
    ensures r.id == u.id && r.createdAt == p.createdAt.GetOr(u.createdAt) && r.updatedAt == now
    ensures r.name == p.name.GetOr(u.name) && r.email == p.email.GetOr(u.email)
    ensures r.emailVerified == p.emailVerified.GetOr(u.emailVerified)
    ensures r.image == p.image.GetOr(u.image) && r.password == p.password.GetOr(u.password)
  {
    u.(name := p.name.GetOr(u.name), email := p.email.GetOr(u.email),
       emailVerified := p.emailVerified.GetOr(u.emailVerified), image := p.image.GetOr(u.image),
       password := p.password.GetOr(u.password), createdAt := p.createdAt.GetOr(u.createdAt), updatedAt := now)
  }

  /** The patch would give user `id` an email another user already has. */
  predicate EmailTaken(t: Tables, id: Id, p: UserPatch)
  {
    p.email.Some? && exists u :: u in t.users && u.id != id && u.email == p.email.value
  }

  /**
   * `update(id, data)`: the user with that id gets the supplied columns
   * and a new updatedAt; nothing else changes.  An email another user has
   * violates the UNIQUE constraint, and then nothing changes.
   */
  method Update(db: Database, id: Id, p: UserPatch, now: Time) returns (r: Result<Option<User>, string>)
    requires Consistent(db.tables)
    modifies db
    ensures Consistent(db.tables)
    ensures r.Err? <==> GetById(old(db.tables), id).Some? && EmailTaken(old(db.tables), id, p)
    ensures r.Err? ==> r.error == UniqueViolation && db.tables == old(db.tables)
    ensures r.Ok? ==>
      && r.value == (if GetById(old(db.tables), id).Some? then Some(Patched(GetById(old(db.tables), id).value, p, now)) else None)
      && |db.tables.users| == |old(db.tables.users)|
      && (forall i :: 0 <= i < |old(db.tables.users)| ==>
            db.tables.users[i] == if old(db.tables.users[i]).id == id then Patched(old(db.tables.users[i]), p, now)
                                  else old(db.tables.users[i]))
      && db.tables.(users := old(db.tables.users)) == old(db.tables)
  {
    var t := db.tables;
    var target := GetById(t, id);
    if target.Some? && EmailTaken(t, id, p) {
      return Err(UniqueViolation);
    }
    var f := (u: User) => Patched(u, p, now);
    var isTarget := (u: User) => u.id == id;
    var users' := Seqs.MapWhere(t.users, isTarget, f);
    Seqs.MapWhereKeysDistinct(t.users, isTarget, f, UserKey);
    forall i, j | 0 <= i < j < |users'| ensures users'[i].email != users'[j].email {
      assert t.users[i] in t.users && t.users[j] in t.users;
    }
    db.tables := t.(users := users');
    r := Ok(match target case None => None case Some(u) => Some(Patched(u, p, now)));
  }

  /**
   * `delete(id)`: removes the user and, through the ON DELETE CASCADE
   * rules, every row the user owns and every row that points at one of
   * the user's links, tags or collections.
   */
  method Delete(db: Database, id: Id)
    requires Consistent(db.tables)
    modifies db
    ensures Consistent(db.tables)
    ensures db.tables == DeleteUser(old(db.tables), id)
    ensures GetById(db.tables, id).None?
    ensures forall l :: l in db.tables.links ==> l.userId != id
    ensures forall g :: g in db.tables.tags ==> g.userId != id
    ensures forall c :: c in db.tables.collections ==> c.userId != id
    ensures forall n :: n in db.tables.notes ==> n.userId != id
    ensures forall e :: e in db.tables.searchHistory ==> e.userId != id
    ensures forall a :: a in db.tables.activityLog ==> a.userId != id
  {
    DeleteUserCascade(db.tables, id);
    db.tables := DeleteUser(db.tables, id);
  }
}
