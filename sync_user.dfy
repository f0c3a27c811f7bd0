/**
 * Mirroring the signed-in identity into the user table: a row with the same email is
 * refreshed; failing that, a row carrying the provider's id is re-pointed to the new
 * email; failing that, a row is inserted under a freshly generated id.
 */
module SyncUser {
  import opened Base
  import opened Entities
  import opened Store

  const NotAuthenticated := "Not authenticated"

  /** The profile claims of the identity provider; each may be missing. */
  datatype Metadata = Metadata(name: Nullable<string>, fullName: Nullable<string>, avatarUrl: Nullable<string>)

  /** The authenticated identity: the provider's id, its email if any, and the profile claims. */
  datatype Principal = Principal(id: string, email: Option<string>, metadata: Metadata)

  /** There is a principal and its email is truthy. */
  predicate SignedIn(auth: Option<Principal>)
  {
    auth.Some? && auth.value.email.Some? && auth.value.email.value != ""
  }

  /** The name the claims offer: `name`, else `full_name` (JavaScript `||`). */
  function ClaimedName(meta: Metadata): Nullable<string>
  {
    OrElse(meta.name, meta.fullName)
  }

  /** The row after the email branch: claimed name, else the old name; claimed avatar, else the old avatar. */
  function Refresh(u: User, meta: Metadata): (r: User)
    ensures r.id == u.id && r.email == u.email && r.companyId == u.companyId
    ensures Truthy(ClaimedName(meta)) ==> r.name == Some(ClaimedName(meta).value)
    ensures !Truthy(ClaimedName(meta)) ==> r.name == u.name
    ensures Truthy(meta.avatarUrl) ==> r.avatarUrl == Some(meta.avatarUrl.value)
    ensures !Truthy(meta.avatarUrl) ==> r.avatarUrl == u.avatarUrl
  {
    u.(name := Stored(OrElse(ClaimedName(meta), FromColumn(u.name))),
       avatarUrl := Stored(OrElse(meta.avatarUrl, FromColumn(u.avatarUrl))))
  }

  /**
   * The row after the provider-id branch: the new email, and name and avatar taken from
   * the claims without falling back to the old values (a missing claim leaves the column
   * as it is, a null one clears it).
   */
  function Relink(u: User, email: string, meta: Metadata): (r: User)
    ensures r.id == u.id && r.email == email && r.companyId == u.companyId
    ensures r.name == Patched(u.name, ClaimedName(meta))
    ensures r.avatarUrl == Patched(u.avatarUrl, meta.avatarUrl)
  {
    u.(email := email,
       name := Patched(u.name, ClaimedName(meta)),
       avatarUrl := Patched(u.avatarUrl, meta.avatarUrl))
  }

  /** The inserted row: the generated id, the email, the claimed name and avatar, no company. */
  function NewUser(id: string, email: string, meta: Metadata): (r: User)
    ensures r.id == id && r.email == email && r.companyId.None?
    ensures r.name == Stored(ClaimedName(meta)) && r.avatarUrl == Stored(meta.avatarUrl)
  {
    User(id, email, Stored(ClaimedName(meta)), Stored(meta.avatarUrl), None)
  }

  /** What a call hands back, and the user table after it. */
  datatype SyncOutcome = SyncOutcome(result: Result<User>, users: seq<User>)

  /**
   * The three-branch reconciliation over the user table. An insert whose generated id is
   * already taken fails in the database, and as nothing catches it the error escapes.
   */
  function Sync(users: seq<User>, auth: Option<Principal>, newId: string): (o: SyncOutcome)
    ensures !SignedIn(auth) ==> o == SyncOutcome(Err(NotAuthenticated), users)
    ensures SignedIn(auth) ==>
      var email, meta := auth.value.email.value, auth.value.metadata;
      match FindUserByEmail(users, email)
      case Some(i) => o == SyncOutcome(Ok(Refresh(users[i], meta)), users[i := Refresh(users[i], meta)])
      case None =>
        match FindUserById(users, auth.value.id)
        case Some(j) => o == SyncOutcome(Ok(Relink(users[j], email, meta)), users[j := Relink(users[j], email, meta)])
        case None =>
          if FindUserById(users, newId).Some? then o == SyncOutcome(Thrown, users)
          else o == SyncOutcome(Ok(NewUser(newId, email, meta)), users + [NewUser(newId, email, meta)])
    ensures o.result.Thrown? ==> o.users == users
    ensures |users| <= |o.users| <= |users| + 1
    ensures SignedIn(auth) && FindUserByEmail(users, auth.value.email.value).Some? ==> |o.users| == |users|
    ensures o.result.Ok? ==> o.result.value in o.users && o.result.value.email == auth.value.email.value
    ensures DistinctUsers(users) ==> DistinctUsers(o.users)
  {
    if !SignedIn(auth) then SyncOutcome(Err(NotAuthenticated), users)
    else
      var email, meta := auth.value.email.value, auth.value.metadata;
      match FindUserByEmail(users, email)
      case Some(i) =>
        var u := Refresh(users[i], meta);
        ReplaceKeepsDistinct(users, i, u);
        assert users[i := u][i] == u;
        SyncOutcome(Ok(u), users[i := u])
      case None =>
        match FindUserById(users, auth.value.id)
        case Some(j) =>
          var u := Relink(users[j], email, meta);
          ReplaceKeepsDistinct(users, j, u);
          assert users[j := u][j] == u;
          SyncOutcome(Ok(u), users[j := u])
        case None =>
          if FindUserById(users, newId).Some? then SyncOutcome(Thrown, users)
          else
            var u := NewUser(newId, email, meta);
            AddKeepsDistinct(users, u);
            SyncOutcome(Ok(u), users + [u])
  }

  /** Rewriting a row in place keeps keys unique when its id stays and its email is its own or unused. */
  lemma ReplaceKeepsDistinct(users: seq<User>, i: nat, u: User)
    requires i < |users| && u.id == users[i].id
    requires u.email == users[i].email || forall k :: 0 <= k < |users| ==> users[k].email != u.email
    ensures DistinctUsers(users) ==> DistinctUsers(users[i := u])
  {
  }

  lemma AddKeepsDistinct(users: seq<User>, u: User)
    requires forall k :: 0 <= k < |users| ==> users[k].id != u.id && users[k].email != u.email
    ensures DistinctUsers(users) ==> DistinctUsers(users + [u])
  {
  }

  /** Whichever branch produced it, a synced row is left as it is by a further refresh with the same claims. */
  lemma {:induction false} SyncedIsFixpoint(users: seq<User>, auth: Option<Principal>, newId: string)
    requires Sync(users, auth, newId).result.Ok?
    ensures Refresh(Sync(users, auth, newId).result.value, auth.value.metadata) == Sync(users, auth, newId).result.value
  {
    var email, meta := auth.value.email.value, auth.value.metadata;
    var u := Sync(users, auth, newId).result.value;
    var c := ClaimedName(meta);
    assert !Truthy(c) ==> Stored(FromColumn(u.name)) == u.name;
    assert !Truthy(meta.avatarUrl) ==> Stored(FromColumn(u.avatarUrl)) == u.avatarUrl;
  }

  /**
   * Calling again with the same claims takes the email branch, hands back the same row and
   * leaves the table as the first call left it.
   */
  lemma {:induction false} SyncIdempotent(users: seq<User>, auth: Option<Principal>, newId: string, nextId: string)
    requires DistinctUsers(users)
    requires Sync(users, auth, newId).result.Ok?
    ensures Sync(Sync(users, auth, newId).users, auth, nextId) == Sync(users, auth, newId)
  {
    var o := Sync(users, auth, newId);
    var u := o.result.value;
    var email := auth.value.email.value;
    SyncedIsFixpoint(users, auth, newId);
    var k :| 0 <= k < |o.users| && o.users[k] == u;
    var i := FindUserByEmail(o.users, email).value;
    assert o.users[i] == u;
    assert o.users[i := u] == o.users;
  }

  /** `getCurrentUser`: the row with the principal's email, looked up and never written. */
  function GetCurrentUser(users: seq<User>, auth: Option<Principal>): (r: Option<User>)
    ensures r.Some? ==> SignedIn(auth) && r.value in users && r.value.email == auth.value.email.value
    ensures r.None? <==> !SignedIn(auth) || forall i :: 0 <= i < |users| ==> users[i].email != auth.value.email.value
  {
    if !SignedIn(auth) then None
    else match FindUserByEmail(users, auth.value.email.value)
      case None => None
      case Some(i) => Some(users[i])
  }

  /** After a successful sync the current user is the row the sync handed back. */
  lemma CurrentAfterSync(users: seq<User>, auth: Option<Principal>, newId: string)
    requires DistinctUsers(users)
    requires Sync(users, auth, newId).result.Ok?
    ensures GetCurrentUser(Sync(users, auth, newId).users, auth) == Some(Sync(users, auth, newId).result.value)
  {
    var o := Sync(users, auth, newId);
    var k :| 0 <= k < |o.users| && o.users[k] == o.result.value;
  }

  /**
   * `syncUser`. `auth` is the principal the session resolves to and `newId` the id the
   * database would generate for an insert. Only the user table changes, as `Sync` says.
   */
  method SyncUser(db: Database, auth: Option<Principal>, newId: string) returns (r: Result<User>)
    requires db.Valid()
    modifies db
    ensures db.Valid()
    ensures db.companies == old(db.companies) && db.products == old(db.products) && db.movements == old(db.movements)
    ensures db.openings == old(db.openings)
    ensures SyncOutcome(r, db.users) == Sync(old(db.users), auth, newId)
  {
    if !SignedIn(auth) {
      return Err(NotAuthenticated);
    }
    var email, meta := auth.value.email.value, auth.value.metadata;
    var user: User;
    var found := FindUserByEmail(db.users, email);
    if found.Some? {
      user := Refresh(db.users[found.value], meta);
      db.users := db.users[found.value := user];
    } else {
      var existing := FindUserById(db.users, auth.value.id);
      if existing.Some? {
        user := Relink(db.users[existing.value], email, meta);
        db.users := db.users[existing.value := user];
      } else {
        if FindUserById(db.users, newId).Some? {
          return Thrown;
        }
        user := NewUser(newId, email, meta);
        db.users := db.users + [user];
      }
    }
    r := Ok(user);
  }
}
