/**
 The records the moderation console works on (users and role-elevation
 requests) and the log of remote writes its actions attempt. Every write
 carries whether the store accepted it; the outcome of each write is an
 input to the workflow that attempts it.
 */
module Records {

  import opened Opt

  /**
   `user_type`. The unknown case stands for any other string the store may
   hold; its `name` is never one of the three known spellings (see `Canonical`).
   */
  datatype Role = Superadmin | Admin | RegularUser | UnknownRole(name: string)

  /** An unknown role never carries a spelling of a known one. */
  predicate Canonical(r: Role) {
    r.UnknownRole? ==> r.name != "superadmin" && r.name != "admin" && r.name != "user"
  }

  /** The role a stored `user_type` string denotes. */
  function ParseRole(s: string): (r: Role)
    ensures Canonical(r)
    ensures RoleName(r) == s
  {
    if s == "superadmin" then Superadmin
    else if s == "admin" then Admin
    else if s == "user" then RegularUser
    else UnknownRole(s)
  }

  /** Reading back the spelling of a canonical role gives the role itself. */
  lemma ParseRoleName(r: Role)
    requires Canonical(r)
    ensures ParseRole(RoleName(r)) == r
  {
  }

  /** The role as the store spells it. */
  function RoleName(r: Role): string {
    match r
    case Superadmin => "superadmin"
    case Admin => "admin"
    case RegularUser => "user"
    case UnknownRole(name) => name
  }

  /** `users.status`: `pending_admin` marks an unfiled request for elevation. */
  datatype UserStatus = Active | PendingAdmin | OtherStatus(name: string)

  /** A row of `users` as the console caches it; `isUpdating` is local to the console. */
  datatype UserRow = UserRow(
    id: string,
    firstName: string,
    middleName: Option<string>,
    lastName: string,
    email: string,
    mobileNumber: Option<string>,
    userType: Role,
    status: UserStatus,
    requestedRole: Option<Role>,
    createdAt: Option<int>,
    isBanned: bool,
    bannedUntil: Option<int>,
    banReason: Option<string>,
    isUpdating: bool)

  datatype RequestStatus = Pending | Approved | Rejected

  /**
   A row of `admin_approval_requests`, or a synthetic one inferred from a
   pending user (`isSynthetic`, never stored). Times are milliseconds.
   */
  datatype ApprovalRequest = ApprovalRequest(
    id: string,
    userId: string,
    requestedRole: Role,
    requestedAt: int,
    status: RequestStatus,
    reviewedAt: Option<int>,
    reviewedBy: Option<string>,
    notes: Option<string>,
    isSynthetic: bool)

  /** The fields an approval decision writes into the user's row. */
  datatype UserPatch = UserPatch(userType: Role, status: UserStatus, clearsRequestedRole: bool)

  /** A remote write, with the values the console sends. */
  datatype Write =
    | InsertRequest(userId: string, requestedRole: Role, status: RequestStatus, notes: Option<string>)
    | ReviewRequest(requestId: string, verdict: RequestStatus, reviewedAt: int, reviewedBy: Option<string>, notes: Option<string>)
    | UpdateUser(userId: string, patch: UserPatch)
    | UpdateRole(userId: string, role: Role)
    | UpdateBanStatus(userId: string, banned: bool, banReason: Option<string>, bannedUntil: Option<int>)
    | InsertNotification(userId: string, message: string)
    | SendBanEmail(to: string, name: string, reason: string, until: Option<int>, permanent: bool)
    | SendUnbanEmail(to: string, name: string, reason: string)
    | InsertAdminNotice(kind: string, message: string)

  /** A write the console attempted, and whether it went through. */
  datatype Attempt = Attempt(write: Write, ok: bool)

  /** Notifications and e-mails: their failure is swallowed where they are sent. */
  predicate BestEffort(w: Write) {
    w.InsertNotification? || w.SendBanEmail? || w.SendUnbanEmail? || w.InsertAdminNotice?
  }

  /** A write whose failure aborts the operation. */
  predicate Fatal(a: Attempt) {
    !a.ok && !BestEffort(a.write)
  }

  /** Some write the operation depends on failed. */
  predicate HasFatal(log: seq<Attempt>) {
    exists i :: 0 <= i < |log| && Fatal(log[i])
  }

  /** Nothing is attempted after a failed write that the operation depends on. */
  predicate HaltsOnFatal(log: seq<Attempt>) {
    forall i :: 0 <= i < |log| && Fatal(log[i]) ==> i == |log| - 1
  }

  /** How a fetch from the store ended: an error, or data that may be null. */
  datatype Fetch<T> = FetchFailed | Fetched(data: Option<seq<T>>)

  /** Two logs that attempt the same writes, whatever the outcomes. */
  predicate SameWrites(a: seq<Attempt>, b: seq<Attempt>) {
    |a| == |b| && forall i :: 0 <= i < |a| ==> a[i].write == b[i].write
  }

  /** A write that went through, put in front of a log, changes neither whether it halts nor whether it failed. */
  lemma PrependCommitted(a: Attempt, log: seq<Attempt>)
    requires a.ok
    ensures HasFatal([a] + log) <==> HasFatal(log)
    ensures HaltsOnFatal([a] + log) <==> HaltsOnFatal(log)
  {
    var full := [a] + log;
    assert forall i :: 1 <= i < |full| ==> full[i] == log[i - 1];
    assert !Fatal(full[0]);
    if HaltsOnFatal(log) {
      forall i | 0 <= i < |full| && Fatal(full[i]) ensures i == |full| - 1 {
        assert Fatal(log[i - 1]);
      }
    }
    if HaltsOnFatal(full) {
      forall i | 0 <= i < |log| && Fatal(log[i]) ensures i == |log| - 1 {
        assert Fatal(full[i + 1]);
      }
    }
    if HasFatal(log) {
      var i :| 0 <= i < |log| && Fatal(log[i]);
      assert Fatal(full[i + 1]);
    }
  }
}
