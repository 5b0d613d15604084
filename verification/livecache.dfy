/**
 The console's cached list of users: loading it, merging rows pushed by the
 store's change feed, the optimistic role change, and which row actions are
 offered. Superadmin rows are protected only here, where actions are
 offered; the role change itself does not check the role.
 */
module LiveCache {

  import opened Opt
  import opened Records

  /** `users.map(user => user.id === id ? f(user) : user)`. */
  function MapRow(users: seq<UserRow>, id: string, f: UserRow -> UserRow): (r: seq<UserRow>)
    ensures |r| == |users|
    ensures forall i :: 0 <= i < |users| ==> r[i] == if users[i].id == id then f(users[i]) else users[i]
  {
    if |users| == 0 then []
    else [if users[0].id == id then f(users[0]) else users[0]] + MapRow(users[1..], id, f)
  }

  /** The row `{ ...cached, ...incoming }`: the store's fields win, the console's `isUpdating` stays. */
  function Merge(cached: UserRow, incoming: UserRow): UserRow {
    incoming.(isUpdating := cached.isUpdating)
  }

  /** The change-feed handler: the row with the incoming id takes the incoming fields. */
  function ApplyUpdate(users: seq<UserRow>, incoming: UserRow): (r: seq<UserRow>)
    ensures |r| == |users|
    ensures forall i :: 0 <= i < |users| ==> r[i].id == users[i].id && r[i].isUpdating == users[i].isUpdating
    ensures forall i :: 0 <= i < |users| && users[i].id != incoming.id ==> r[i] == users[i]
    ensures forall i :: 0 <= i < |users| && users[i].id == incoming.id ==>
      r[i].(isUpdating := incoming.isUpdating) == incoming
  {
    MapRow(users, incoming.id, (u: UserRow) => Merge(u, incoming))
  }

  /** An update for a user the console has not cached changes nothing. */
  lemma ApplyUnknownId(users: seq<UserRow>, incoming: UserRow)
    requires forall i :: 0 <= i < |users| ==> users[i].id != incoming.id
    ensures ApplyUpdate(users, incoming) == users
  {
  }

  /** Receiving the same update twice is the same as receiving it once. */
  lemma ApplyIdempotent(users: seq<UserRow>, incoming: UserRow)
    ensures ApplyUpdate(ApplyUpdate(users, incoming), incoming) == ApplyUpdate(users, incoming)
  {
  }

  /** Updates for different users can arrive in either order. */
  lemma ApplyCommutes(users: seq<UserRow>, a: UserRow, b: UserRow)
    requires a.id != b.id
    ensures ApplyUpdate(ApplyUpdate(users, a), b) == ApplyUpdate(ApplyUpdate(users, b), a)
  {
  }

  /** For the same user the later update wins. */
  lemma ApplyLaterWins(users: seq<UserRow>, a: UserRow, b: UserRow)
    requires a.id == b.id
    ensures ApplyUpdate(ApplyUpdate(users, a), b) == ApplyUpdate(users, b)
  {
  }

  /**
   What an optimistic role change shows while the write is in flight and
   after it settles, and the error it set (None: left as it was).
   */
  datatype RoleChange = RoleChange(pending: seq<UserRow>, settled: seq<UserRow>, log: seq<Attempt>, error: Option<string>)

  const RoleChangeError: string := "Failed to update user role. Please try again."

  function MarkUpdating(u: UserRow): UserRow {
    u.(isUpdating := true)
  }

  function Unmark(u: UserRow): UserRow {
    u.(isUpdating := false)
  }

  /**
   `handleRoleChange`: mark the row as updating, write the role, then show the
   new role, or on failure the old one with an error. Both states are computed
   from the list as it was when the change began.
   */
  function ChangeRole(users: seq<UserRow>, id: string, newRole: Role, ok: bool): (r: RoleChange)
    ensures r.log == [Attempt(UpdateRole(id, newRole), ok)]
    ensures r.error.Some? <==> !ok
    ensures r.error.Some? ==> r.error.value == RoleChangeError
    ensures |r.pending| == |users| && |r.settled| == |users|
    ensures forall i :: 0 <= i < |users| && users[i].id != id ==> r.pending[i] == users[i] && r.settled[i] == users[i]
    ensures forall i :: 0 <= i < |users| && users[i].id == id ==>
      && r.pending[i] == users[i].(isUpdating := true)
      && !r.settled[i].isUpdating
      && r.settled[i].userType == (if ok then newRole else users[i].userType)
      && r.settled[i].(isUpdating := users[i].isUpdating, userType := users[i].userType) == users[i]
  {
    var pending := MapRow(users, id, MarkUpdating);
    var settled := if ok then MapRow(users, id, (u: UserRow) => u.(userType := newRole, isUpdating := false))
                   else MapRow(users, id, Unmark);
    RoleChange(pending, settled, [Attempt(UpdateRole(id, newRole), ok)], if ok then None else Some(RoleChangeError))
  }

  /**
   Once settled, no row of the user is left marked as updating, and a
   failed change leaves every role as it was.
   */
  lemma RoleChangeSettles(users: seq<UserRow>, id: string, newRole: Role, ok: bool)
    ensures var r := ChangeRole(users, id, newRole, ok);
            && (forall i :: 0 <= i < |r.settled| && r.settled[i].id == id ==> !r.settled[i].isUpdating)
            && (!ok ==> forall i :: 0 <= i < |users| ==> r.settled[i].userType == users[i].userType)
            && (ok ==> forall i :: 0 <= i < |users| ==>
                  r.settled[i].userType == if users[i].id == id then newRole else users[i].userType)
  {
    var r := ChangeRole(users, id, newRole, ok);
    forall i | 0 <= i < |r.settled| && r.settled[i].id == id ensures !r.settled[i].isUpdating {
      if users[i].id != id {
        assert r.settled[i] == users[i];
      }
    }
  }

  /** The moderation button a row offers. */
  datatype ModerationAction = NoAction | OfferBan | OfferUnban

  /** Superadmin rows offer nothing; others offer to lift a ban or to impose one. */
  function RowModeration(u: UserRow): (a: ModerationAction)
    ensures a == NoAction <==> u.userType == Superadmin
    ensures a == OfferUnban <==> u.userType != Superadmin && u.isBanned
    ensures a == OfferBan <==> u.userType != Superadmin && !u.isBanned
  {
    if u.userType == Superadmin then NoAction
    else if u.isBanned then OfferUnban
    else OfferBan
  }

  /** The role selector is disabled while the row is updating and on superadmin rows. */
  predicate RoleSelectEnabled(u: UserRow) {
    !(u.isUpdating || u.userType == Superadmin)
  }

  /** The role selector's change handler: ignored on superadmin rows, else the role change. */
  function SelectRole(row: UserRow, users: seq<UserRow>, value: Role, ok: bool): (r: Option<RoleChange>)
    ensures row.userType == Superadmin <==> r.None?
    ensures r.Some? ==> r.value == ChangeRole(users, row.id, value, ok)
  {
    if row.userType == Superadmin then None else Some(ChangeRole(users, row.id, value, ok))
  }

  /**
   A superadmin row cannot be changed from the table: no role write, no ban
   or unban offered, the selector disabled.
   */
  lemma SuperadminRowImmutable(row: UserRow, users: seq<UserRow>, value: Role, ok: bool)
    requires row.userType == Superadmin
    ensures SelectRole(row, users, value, ok).None?
    ensures RowModeration(row) == NoAction
    ensures !RoleSelectEnabled(row)
  {
  }

  /** Every role write the table can start targets a row that is not a superadmin's. */
  lemma RoleWritesSpareSuperadmins(row: UserRow, users: seq<UserRow>, value: Role, ok: bool)
    requires SelectRole(row, users, value, ok).Some?
    ensures row.userType != Superadmin
    ensures SelectRole(row, users, value, ok).value.log[0].write == UpdateRole(row.id, value)
  {
  }

  const LoadUsersError: string := "Failed to load users. Please try again later."

  /** The cached list after loading, and the error message the load set (None: left as it was). */
  datatype UsersLoaded = UsersLoaded(users: seq<UserRow>, error: Option<string>)

  /**
   `fetchUsers`: the store's rows, none marked as updating. A failed query, or
   one that returns null, keeps the current list and sets the error.
   */
  function LoadUsers(current: seq<UserRow>, fetched: Fetch<UserRow>): (r: UsersLoaded)
    ensures fetched.FetchFailed? || fetched.data.None? ==> r == UsersLoaded(current, Some(LoadUsersError))
    ensures fetched.Fetched? && fetched.data.Some? ==>
      && r.error.None?
      && |r.users| == |fetched.data.value|
      && forall i :: 0 <= i < |r.users| ==> r.users[i] == fetched.data.value[i].(isUpdating := false)
  {
    if fetched.FetchFailed? || fetched.data.None? then UsersLoaded(current, Some(LoadUsersError))
    else UsersLoaded(UnmarkAll(fetched.data.value), None)
  }

  /**
   After a successful load no row is marked as updating, so the role
   selector is enabled exactly on the rows that are not a superadmin's.
   */
  lemma LoadedRowsSelectable(current: seq<UserRow>, rows: seq<UserRow>)
    ensures var r := LoadUsers(current, Fetched(Some(rows)));
            forall i :: 0 <= i < |r.users| ==>
              !r.users[i].isUpdating && (RoleSelectEnabled(r.users[i]) <==> rows[i].userType != Superadmin)
  {
  }

  function UnmarkAll(rows: seq<UserRow>): (r: seq<UserRow>)
    ensures |r| == |rows|
    ensures forall i :: 0 <= i < |rows| ==> r[i] == rows[i].(isUpdating := false)
  {
    if |rows| == 0 then [] else [Unmark(rows[0])] + UnmarkAll(rows[1..])
  }
}
