/**
 Reconciliation of approval requests: the stored requests are merged with
 synthetic ones inferred from users whose status is `pending_admin` but who
 have no stored request of any status, and the merged list is ordered newest
 first with a stable sort, stored requests before synthetic ones on ties.
 */
module Reconcile {

  import opened Opt
  import opened Records
  import JsString
  import StableSort

  /** The prefix that marks the identifier of a synthetic request. */
  const SyntheticPrefix: string := "pending-"

  function SyntheticId(userId: string): (id: string)
    ensures JsString.StartsWith(id, SyntheticPrefix)
    ensures id[|SyntheticPrefix|..] == userId
  {
    SyntheticPrefix + userId
  }

  /** Distinct users get distinct synthetic identifiers. */
  lemma SyntheticIdInjective(a: string, b: string)
    ensures SyntheticId(a) == SyntheticId(b) ==> a == b
  {
    if SyntheticId(a) == SyntheticId(b) {
      assert a == SyntheticId(a)[|SyntheticPrefix|..];
    }
  }

  predicate IsPendingAdmin(u: UserRow) {
    u.status == PendingAdmin
  }

  /** The store query selecting the users whose status is `pending_admin`. */
  function PendingAdminUsers(users: seq<UserRow>): (r: seq<UserRow>)
    ensures forall u :: u in r <==> u in users && u.status == PendingAdmin
  {
    StableSort.Keep(users, IsPendingAdmin)
  }

  /** The users that already have a stored request, whatever its status. */
  function RequestUserIds(fetched: seq<ApprovalRequest>): (ids: set<string>)
    ensures forall id :: id in ids <==> exists i :: 0 <= i < |fetched| && fetched[i].userId == id
  {
    if |fetched| == 0 then {}
    else
      var rest := RequestUserIds(fetched[1..]);
      assert forall i :: 1 <= i < |fetched| ==> fetched[i] == fetched[1..][i - 1];
      {fetched[0].userId} + rest
  }

  /** The request inferred for a pending user: an elevation to admin, dated at sign-up or now. */
  function Synthesize(u: UserRow, now: int): ApprovalRequest {
    ApprovalRequest(
      id := SyntheticId(u.id),
      userId := u.id,
      requestedRole := Admin,
      requestedAt := u.createdAt.GetOr(now),
      status := Pending,
      reviewedAt := None,
      reviewedBy := None,
      notes := None,
      isSynthetic := true)
  }

  function SynthesizeAll(users: seq<UserRow>, now: int): (r: seq<ApprovalRequest>)
    ensures |r| == |users|
    ensures forall i :: 0 <= i < |users| ==> r[i] == Synthesize(users[i], now)
    ensures forall x :: x in r <==> exists u :: u in users && x == Synthesize(u, now)
  {
    if |users| == 0 then [] else [Synthesize(users[0], now)] + SynthesizeAll(users[1..], now)
  }

  /** The synthetic requests: one per pending user who has no stored request. */
  function SyntheticRequests(fetched: seq<ApprovalRequest>, pendingUsers: seq<UserRow>, now: int): (r: seq<ApprovalRequest>)
    ensures forall x :: x in r <==>
      exists u :: u in pendingUsers && u.id !in RequestUserIds(fetched) && x == Synthesize(u, now)
    ensures forall x :: x in r ==> x.isSynthetic && x.userId !in RequestUserIds(fetched)
  {
    var ids := RequestUserIds(fetched);
    var lacking := StableSort.Keep(pendingUsers, (u: UserRow) => u.id !in ids);
    SynthesizeAll(lacking, now)
  }

  /** The number of pending users without a stored request. */
  function LackingCount(fetched: seq<ApprovalRequest>, pendingUsers: seq<UserRow>): nat {
    var ids := RequestUserIds(fetched);
    |StableSort.Keep(pendingUsers, (u: UserRow) => u.id !in ids)|
  }

  function RequestedAt(r: ApprovalRequest): int {
    r.requestedAt
  }

  /** The order of the sort comparator `b.requested_at - a.requested_at`: later first. */
  function NewerFirst(a: int, b: int): bool {
    a > b
  }

  lemma NewerFirstIsStrictTotalOrder()
    ensures StableSort.StrictTotalOrder(NewerFirst)
  {
  }

  /**
   The reconciled list: stored requests followed by synthetic ones, sorted
   stably by request time, newest first.
   */
  function Reconcile(fetched: seq<ApprovalRequest>, pendingUsers: seq<UserRow>, now: int): (r: seq<ApprovalRequest>)
    ensures |r| == |fetched| + LackingCount(fetched, pendingUsers)
    ensures multiset(r) == multiset(fetched) + multiset(SyntheticRequests(fetched, pendingUsers, now))
    ensures forall i, j :: 0 <= i < j < |r| ==> r[i].requestedAt >= r[j].requestedAt
    ensures forall t :: (StableSort.WithKey(r, RequestedAt, t)
      == StableSort.WithKey(fetched, RequestedAt, t)
       + StableSort.WithKey(SyntheticRequests(fetched, pendingUsers, now), RequestedAt, t))
  {
    var synthetic := SyntheticRequests(fetched, pendingUsers, now);
    var r := StableSort.Sort(fetched + synthetic, RequestedAt, NewerFirst);
    NewerFirstIsStrictTotalOrder();
    StableSort.SortSorted(fetched + synthetic, RequestedAt, NewerFirst);
    forall t ensures StableSort.WithKey(r, RequestedAt, t)
      == StableSort.WithKey(fetched, RequestedAt, t) + StableSort.WithKey(synthetic, RequestedAt, t)
    {
      StableSort.SortStable(fetched + synthetic, RequestedAt, NewerFirst, t);
      StableSort.WithKeyConcat(fetched, synthetic, RequestedAt, t);
    }
    r
  }

  /** Stored requests never carry the synthetic flag. */
  ghost predicate AllStored(fetched: seq<ApprovalRequest>) {
    forall i :: 0 <= i < |fetched| ==> !fetched[i].isSynthetic
  }

  /**
   A user gets a synthetic request exactly when they are among the pending
   users and no stored request of any status names them.
   */
  lemma SyntheticExactlyForUnfiled(fetched: seq<ApprovalRequest>, pendingUsers: seq<UserRow>, now: int, userId: string)
    requires AllStored(fetched)
    ensures (exists x :: x in Reconcile(fetched, pendingUsers, now) && x.isSynthetic && x.userId == userId)
        <==> (exists u :: u in pendingUsers && u.id == userId)
             && forall i :: 0 <= i < |fetched| ==> fetched[i].userId != userId
  {
    var r := Reconcile(fetched, pendingUsers, now);
    var synthetic := SyntheticRequests(fetched, pendingUsers, now);
    ReconcileMembers(fetched, pendingUsers, now);
    if exists x :: x in r && x.isSynthetic && x.userId == userId {
      var x :| x in r && x.isSynthetic && x.userId == userId;
      assert x in synthetic;
    }
    if (exists u :: u in pendingUsers && u.id == userId)
       && forall i :: 0 <= i < |fetched| ==> fetched[i].userId != userId
    {
      var u :| u in pendingUsers && u.id == userId;
      assert Synthesize(u, now) in synthetic;
    }
  }

  /**
   Fed with the `pending_admin` query over the users, reconciliation gives a
   user a synthetic request exactly when their status is `pending_admin` and
   no stored request of any status names them.
   */
  lemma SyntheticOnlyForPendingAdmins(fetched: seq<ApprovalRequest>, users: seq<UserRow>, now: int, userId: string)
    requires AllStored(fetched)
    ensures (exists x :: x in Reconcile(fetched, PendingAdminUsers(users), now) && x.isSynthetic && x.userId == userId)
        <==> (exists u :: u in users && u.status == PendingAdmin && u.id == userId)
             && forall i :: 0 <= i < |fetched| ==> fetched[i].userId != userId
  {
    SyntheticExactlyForUnfiled(fetched, PendingAdminUsers(users), now, userId);
  }

  /** The reconciled list holds exactly the stored and the synthetic requests. */
  lemma ReconcileMembers(fetched: seq<ApprovalRequest>, pendingUsers: seq<UserRow>, now: int)
    ensures forall x :: x in Reconcile(fetched, pendingUsers, now) <==>
      x in fetched || x in SyntheticRequests(fetched, pendingUsers, now)
  {
    var r := Reconcile(fetched, pendingUsers, now);
    var synthetic := SyntheticRequests(fetched, pendingUsers, now);
    forall x ensures x in r <==> x in fetched || x in synthetic {
      assert x in r <==> x in multiset(r);
      assert x in fetched <==> x in multiset(fetched);
      assert x in synthetic <==> x in multiset(synthetic);
    }
  }

  /**
   Every synthetic request in the reconciled list stands for a pending user
   with no stored request: it asks for admin, is pending, has no notes, and is
   dated at the user's sign-up, or now when that is unknown.
   */
  lemma SyntheticFields(fetched: seq<ApprovalRequest>, pendingUsers: seq<UserRow>, now: int, x: ApprovalRequest)
    requires AllStored(fetched)
    requires x in Reconcile(fetched, pendingUsers, now) && x.isSynthetic
    ensures exists u :: u in pendingUsers && u.id !in RequestUserIds(fetched) && x.userId == u.id
    ensures x.id == SyntheticPrefix + x.userId
    ensures x.requestedRole == Admin && x.status == Pending && x.notes.None?
    ensures x.reviewedAt.None? && x.reviewedBy.None?
    ensures exists u :: u in pendingUsers && u.id == x.userId && x.requestedAt == u.createdAt.GetOr(now)
  {
    ReconcileMembers(fetched, pendingUsers, now);
    assert x !in fetched;
    var u :| u in pendingUsers && u.id !in RequestUserIds(fetched) && x == Synthesize(u, now);
  }

  /**
   Once every pending user has a stored request, reconciliation adds nothing:
   it returns the stored requests, and returns them unchanged when the store
   already delivered them newest first.
   */
  lemma ReconcileOfFiled(fetched: seq<ApprovalRequest>, pendingUsers: seq<UserRow>, now: int)
    requires forall u :: u in pendingUsers ==> u.id in RequestUserIds(fetched)
    ensures SyntheticRequests(fetched, pendingUsers, now) == []
    ensures StableSort.Sorted(fetched, RequestedAt, NewerFirst) ==> Reconcile(fetched, pendingUsers, now) == fetched
  {
    var synthetic := SyntheticRequests(fetched, pendingUsers, now);
    assert fetched + synthetic == fetched;
    if StableSort.Sorted(fetched, RequestedAt, NewerFirst) {
      NewerFirstIsStrictTotalOrder();
      StableSort.SortOfSorted(fetched, RequestedAt, NewerFirst);
    }
  }

  /** The request list after a refresh and the error it set (None: left as it was). */
  datatype Loaded = Loaded(requests: seq<ApprovalRequest>, error: Option<string>)

  const LoadRequestsError: string := "Failed to load approval requests. Please try again later."

  /**
   Refreshing the request list: either fetch failing keeps the last list and
   reports the error; otherwise the list is the reconciliation of what came back.
   */
  function LoadApprovalRequests(current: seq<ApprovalRequest>, requests: Fetch<ApprovalRequest>, pending: Fetch<UserRow>, now: int): (r: Loaded)
    ensures requests.FetchFailed? || pending.FetchFailed? ==> r == Loaded(current, Some(LoadRequestsError))
    ensures requests.Fetched? && pending.Fetched? ==>
      r.error == None && r.requests == Reconcile(requests.data.GetOr([]), pending.data.GetOr([]), now)
  {
    if requests.FetchFailed? || pending.FetchFailed? then Loaded(current, Some(LoadRequestsError))
    else Loaded(Reconcile(requests.data.GetOr([]), pending.data.GetOr([]), now), None)
  }
}
