/**
 The user table of the console: the search and the role and status filters,
 the ordering by role rank and then by name, and the pagination in pages of
 fifteen rows with its "showing from-to of total" summary.
 */
module UserList {

  import opened Opt
  import opened Records
  import JsString
  import StableSort
  import LexOrder
  import Reconcile

  datatype RoleFilter = AnyRole | RoleIs(role: Role)

  datatype StatusFilter = AnyStatus | ActiveOnly | BannedOnly

  /** The name as the table shows it: the middle name, when present and non-empty, between first and last. */
  function DisplayName(u: UserRow): (name: string)
    ensures u.middleName.None? || u.middleName == Some("") ==> name == u.firstName + " " + u.lastName
    ensures u.middleName.Some? && u.middleName.value != "" ==>
      name == u.firstName + " " + u.middleName.value + " " + u.lastName
  {
    var middle := if u.middleName.Some? && u.middleName.value != "" then u.middleName.value + " " else "";
    u.firstName + " " + middle + u.lastName
  }

  /** `searchTerm.trim().toLowerCase()`. */
  function SearchKey(rawSearch: string): string {
    JsString.ToLower(JsString.Trim(rawSearch))
  }

  /** The lower-cased search occurs in the name, the e-mail or the mobile number. */
  predicate MatchesSearch(u: UserRow, search: string) {
    || |search| == 0
    || JsString.Includes(JsString.ToLower(DisplayName(u)), search)
    || JsString.Includes(JsString.ToLower(u.email), search)
    || JsString.Includes(JsString.ToLower(u.mobileNumber.GetOr("")), search)
  }

  predicate MatchesRole(u: UserRow, f: RoleFilter) {
    f.AnyRole? || u.userType == f.role
  }

  predicate MatchesStatus(u: UserRow, f: StatusFilter) {
    match f
    case AnyStatus => true
    case BannedOnly => u.isBanned
    case ActiveOnly => !u.isBanned
  }

  predicate Visible(u: UserRow, search: string, rf: RoleFilter, sf: StatusFilter) {
    MatchesSearch(u, search) && MatchesRole(u, rf) && MatchesStatus(u, sf)
  }

  /** The filter predicate `filteredUsers` applies, for the typed search and the two filters. */
  function VisibleFilter(rawSearch: string, rf: RoleFilter, sf: StatusFilter): UserRow -> bool {
    u => Visible(u, SearchKey(rawSearch), rf, sf)
  }

  /** `filteredUsers`: the users passing all three filters, in their cached order. */
  function FilterUsers(users: seq<UserRow>, rawSearch: string, rf: RoleFilter, sf: StatusFilter): (r: seq<UserRow>)
    ensures forall u :: u in r <==> u in users && Visible(u, SearchKey(rawSearch), rf, sf)
    ensures forall u :: multiset(r)[u] == if Visible(u, SearchKey(rawSearch), rf, sf) then multiset(users)[u] else 0
    ensures forall k :: (StableSort.WithKey(r, UserKey, k)
      == StableSort.Keep(StableSort.WithKey(users, UserKey, k), VisibleFilter(rawSearch, rf, sf)))
  {
    var visible := VisibleFilter(rawSearch, rf, sf);
    StableSort.KeepCount(users, visible);
    forall k ensures StableSort.WithKey(StableSort.Keep(users, visible), UserKey, k)
      == StableSort.Keep(StableSort.WithKey(users, UserKey, k), visible)
    {
      StableSort.KeepWithKey(users, visible, UserKey, k);
    }
    StableSort.Keep(users, visible)
  }

  /** With a blank search and no filter, every user is listed, in order. */
  lemma {:induction false} FilterNothing(users: seq<UserRow>, rawSearch: string)
    requires JsString.Blank(rawSearch)
    ensures FilterUsers(users, rawSearch, AnyRole, AnyStatus) == users
  {
    JsString.TrimEmptyIffBlank(rawSearch);
    StableSort.KeepAll(users, VisibleFilter(rawSearch, AnyRole, AnyStatus));
  }

  /** The active and banned filters split the list: every user passing the other filters lands in exactly one. */
  lemma StatusFiltersPartition(users: seq<UserRow>, rawSearch: string, rf: RoleFilter)
    ensures |FilterUsers(users, rawSearch, rf, ActiveOnly)| + |FilterUsers(users, rawSearch, rf, BannedOnly)|
         == |FilterUsers(users, rawSearch, rf, AnyStatus)|
  {
    var search := SearchKey(rawSearch);
    StableSort.KeepSplit(users, u => Visible(u, search, rf, ActiveOnly), u => Visible(u, search, rf, BannedOnly),
              u => Visible(u, search, rf, AnyStatus));
  }

  /** `roleOrder[user_type] ?? Number.MAX_SAFE_INTEGER`. */
  function RoleRank(r: Role): (rank: nat)
    ensures r == Superadmin <==> rank == 0
    ensures r == Admin <==> rank == 1
    ensures r == RegularUser <==> rank == 2
    ensures r.UnknownRole? <==> rank == 9_007_199_254_740_991
  {
    match r
    case Superadmin => 0
    case Admin => 1
    case RegularUser => 2
    case UnknownRole(_) => 9_007_199_254_740_991
  }

  /** What the list is ordered by: the role rank, then the lower-cased `first last`. */
  datatype SortKey = SortKey(rank: nat, name: string)

  function UserKey(u: UserRow): SortKey {
    SortKey(RoleRank(u.userType), JsString.ToLower(u.firstName + " " + u.lastName))
  }

  predicate KeyLess(a: SortKey, b: SortKey) {
    a.rank < b.rank || (a.rank == b.rank && LexOrder.LexLess(a.name, b.name))
  }

  lemma KeyLessIsStrictTotalOrder()
    ensures StableSort.StrictTotalOrder(KeyLess)
  {
    LexOrder.LexStrictTotalOrder();
  }

  /**
   `sortedUsers`: the filtered users ordered by role rank, then by name; rows
   that tie on both keep their filtered order.
   */
  function SortUsers(filtered: seq<UserRow>): (r: seq<UserRow>)
    ensures multiset(r) == multiset(filtered)
    ensures forall i, j :: 0 <= i < j < |r| ==> RoleRank(r[i].userType) <= RoleRank(r[j].userType)
    ensures forall i, j :: 0 <= i < j < |r| && RoleRank(r[i].userType) == RoleRank(r[j].userType) ==>
      !LexOrder.LexLess(UserKey(r[j]).name, UserKey(r[i]).name)
    ensures forall k :: StableSort.WithKey(r, UserKey, k) == StableSort.WithKey(filtered, UserKey, k)
  {
    var r := StableSort.Sort(filtered, UserKey, KeyLess);
    KeyLessIsStrictTotalOrder();
    StableSort.SortSorted(filtered, UserKey, KeyLess);
    forall k ensures StableSort.WithKey(r, UserKey, k) == StableSort.WithKey(filtered, UserKey, k) {
      StableSort.SortStable(filtered, UserKey, KeyLess, k);
    }
    r
  }

  /** Rows per page. */
  const PageSize: nat := 15

  /** `Math.max(1, Math.ceil(n / PAGE_SIZE))`. */
  function TotalPages(n: nat): (p: nat)
    ensures p >= 1
    ensures n == 0 ==> p == 1
    ensures n <= p * PageSize
    ensures n == 0 || (p - 1) * PageSize < n
  {
    if n == 0 then 1 else (n + PageSize - 1) / PageSize
  }

  /** `goToPage` on a list of `n` rows: the requested page clamped into `1..totalPages`. */
  function GoToPage(page: int, n: nat): (r: int)
    ensures 1 <= r <= TotalPages(n)
    ensures 1 <= page <= TotalPages(n) ==> r == page
    ensures page < 1 ==> r == 1
    ensures page > TotalPages(n) ==> r == TotalPages(n)
  {
    var target := if page < 1 then 1 else page;
    if target > TotalPages(n) then TotalPages(n) else target
  }

  /** The effect that pulls the current page back when the list shrinks below it. */
  function ClampPage(page: int, n: nat): (r: int)
    ensures page <= TotalPages(n) ==> r == page
    ensures page > TotalPages(n) ==> r == TotalPages(n)
    ensures r <= TotalPages(n)
  {
    if page > TotalPages(n) then TotalPages(n) else page
  }

  /** `Array.prototype.slice(start, end)`: negative positions count from the end, all clamped into range. */
  function Slice<T>(s: seq<T>, start: int, end: int): (r: seq<T>)
    ensures 0 <= start <= end <= |s| ==> r == s[start..end]
    ensures |r| <= |s|
  {
    var from := if start < 0 then (if |s| + start < 0 then 0 else |s| + start) else (if start > |s| then |s| else start);
    var to := if end < 0 then (if |s| + end < 0 then 0 else |s| + end) else (if end > |s| then |s| else end);
    if from < to then s[from..to] else []
  }

  /** `paginatedUsers`: the rows of the current page. */
  function PageRows(sorted: seq<UserRow>, page: int): (r: seq<UserRow>)
    ensures |r| <= PageSize
    ensures page >= 1 ==> forall i :: 0 <= i < |r| ==>
      (page - 1) * PageSize + i < |sorted| && r[i] == sorted[(page - 1) * PageSize + i]
    ensures page >= 1 && (page - 1) * PageSize < |sorted| ==>
      |r| == if |sorted| - (page - 1) * PageSize < PageSize then |sorted| - (page - 1) * PageSize else PageSize
    ensures page >= 1 && (page - 1) * PageSize >= |sorted| ==> r == []
  {
    var start := (page - 1) * PageSize;
    Slice(sorted, start, start + PageSize)
  }

  /** `showingRange`: the 1-based positions of the first and last row shown, and the total. */
  datatype Range = Range(from: int, to: int, total: nat)

  function ShowingRange(total: nat, page: int): (r: Range)
    ensures r.total == total
    ensures total == 0 ==> r == Range(0, 0, 0)
    ensures total > 0 ==> r.from == (page - 1) * PageSize + 1 && r.to <= total
    ensures total > 0 ==> r.to == if total < page * PageSize then total else page * PageSize
  {
    if total == 0 then Range(0, 0, 0)
    else Range((page - 1) * PageSize + 1, if total < page * PageSize then total else page * PageSize, total)
  }

  /**
   On every reachable page of a non-empty list, the summary describes exactly
   the rows shown: they are the list's rows `from` to `to`, at least one and at
   most fifteen.
   */
  lemma {:induction false} RangeMatchesRows(sorted: seq<UserRow>, page: int)
    requires |sorted| > 0 && 1 <= page <= TotalPages(|sorted|)
    ensures var range := ShowingRange(|sorted|, page);
            && 1 <= range.from <= range.to <= |sorted|
            && PageRows(sorted, page) == sorted[range.from - 1..range.to]
            && |PageRows(sorted, page)| == range.to - range.from + 1
  {
    var start := (page - 1) * PageSize;
    assert start < |sorted|;
    var range := ShowingRange(|sorted|, page);
    assert range.from == start + 1;
  }

  /** The pages together list every row exactly once, in order. */
  lemma {:induction false} PagesCoverList(sorted: seq<UserRow>, i: nat)
    requires i < |sorted|
    ensures var page := i / PageSize + 1;
            && 1 <= page <= TotalPages(|sorted|)
            && PageRows(sorted, page)[i % PageSize] == sorted[i]
  {
    var page := i / PageSize + 1;
    var start := (page - 1) * PageSize;
    assert start == i - i % PageSize;
    assert page <= TotalPages(|sorted|);
  }

  /** The Previous button: enabled on a non-empty list past the first page. */
  predicate PreviousEnabled(page: int, total: nat) {
    !(page <= 1 || total == 0)
  }

  /** The Next button: enabled on a non-empty list before the last page. */
  predicate NextEnabled(page: int, total: nat) {
    !(page >= TotalPages(total) || total == 0)
  }

  /** An enabled Previous or Next button moves exactly one page and stays in range. */
  lemma StepStaysInRange(page: int, total: nat)
    requires 1 <= page <= TotalPages(total)
    ensures PreviousEnabled(page, total) ==> GoToPage(page - 1, total) == page - 1 >= 1
    ensures NextEnabled(page, total) ==> GoToPage(page + 1, total) == page + 1 <= TotalPages(total)
  {
  }

  /** The filter state of the table and its current page. */
  datatype View = View(rawSearch: string, roleFilter: RoleFilter, statusFilter: StatusFilter, page: int)

  /** Changing the search or a filter returns to the first page; re-selecting the same values does not. */
  function SetFilters(v: View, rawSearch: string, rf: RoleFilter, sf: StatusFilter): (r: View)
    ensures r.rawSearch == rawSearch && r.roleFilter == rf && r.statusFilter == sf
    ensures (rawSearch, rf, sf) != (v.rawSearch, v.roleFilter, v.statusFilter) ==> r.page == 1
    ensures (rawSearch, rf, sf) == (v.rawSearch, v.roleFilter, v.statusFilter) ==> r == v
  {
    if (rawSearch, rf, sf) == (v.rawSearch, v.roleFilter, v.statusFilter) then v
    else View(rawSearch, rf, sf, 1)
  }

  /** The rows the table shows for a view: filter, sort, clamp the page, slice. */
  function Shown(users: seq<UserRow>, v: View): (r: seq<UserRow>)
    ensures |r| <= PageSize
    ensures forall u :: u in r ==> u in users && Visible(u, SearchKey(v.rawSearch), v.roleFilter, v.statusFilter)
  {
    var sorted := SortUsers(FilterUsers(users, v.rawSearch, v.roleFilter, v.statusFilter));
    var r := PageRows(sorted, ClampPage(v.page, |sorted|));
    assert forall u :: u in r ==> u in multiset(sorted) by {
      forall u | u in r ensures u in multiset(sorted) {
        SliceMember(sorted, ClampPage(v.page, |sorted|), u);
      }
    }
    r
  }

  lemma SliceMember(sorted: seq<UserRow>, page: int, u: UserRow)
    requires u in PageRows(sorted, page)
    ensures u in sorted
  {
  }

  /** After a filter change the table shows the first rows of the newly sorted list. */
  lemma FilterChangeShowsFirstPage(users: seq<UserRow>, v: View, rawSearch: string, rf: RoleFilter, sf: StatusFilter)
    requires (rawSearch, rf, sf) != (v.rawSearch, v.roleFilter, v.statusFilter)
    ensures var sorted := SortUsers(FilterUsers(users, rawSearch, rf, sf));
            var n := if |sorted| < PageSize then |sorted| else PageSize;
            Shown(users, SetFilters(v, rawSearch, rf, sf)) == sorted[..n]
  {
  }

  /** The approval-request status filter; the console starts on `pending`. */
  datatype RequestFilter = AllRequests | StatusIs(status: RequestStatus)

  /** `filteredApprovalRequests`. */
  function FilterRequests(requests: seq<ApprovalRequest>, f: RequestFilter): (r: seq<ApprovalRequest>)
    ensures f.AllRequests? ==> r == requests
    ensures f.StatusIs? ==> forall x :: x in r <==> x in requests && x.status == f.status
    ensures f.StatusIs? ==> forall x :: multiset(r)[x] == if x.status == f.status then multiset(requests)[x] else 0
    ensures (forall i, j :: 0 <= i < j < |requests| ==> requests[i].requestedAt >= requests[j].requestedAt) ==>
      forall i, j :: 0 <= i < j < |r| ==> r[i].requestedAt >= r[j].requestedAt
  {
    if f.AllRequests? then requests
    else
      StableSort.KeepCount(requests, HasStatus(f.status));
      KeepNewestFirst(requests, HasStatus(f.status));
      StableSort.Keep(requests, HasStatus(f.status))
  }

  function HasStatus(status: RequestStatus): ApprovalRequest -> bool {
    (x: ApprovalRequest) => x.status == status
  }

  /** Selecting from a newest-first list leaves it newest first. */
  lemma KeepNewestFirst(requests: seq<ApprovalRequest>, keep: ApprovalRequest -> bool)
    ensures (forall i, j :: 0 <= i < j < |requests| ==> requests[i].requestedAt >= requests[j].requestedAt) ==>
      forall i, j :: 0 <= i < j < |StableSort.Keep(requests, keep)| ==>
        StableSort.Keep(requests, keep)[i].requestedAt >= StableSort.Keep(requests, keep)[j].requestedAt
  {
    if forall i, j :: 0 <= i < j < |requests| ==> requests[i].requestedAt >= requests[j].requestedAt {
      assert StableSort.Sorted(requests, Reconcile.RequestedAt, Reconcile.NewerFirst);
      StableSort.KeepSorted(requests, keep, Reconcile.RequestedAt, Reconcile.NewerFirst);
    }
  }

  /**
   The sorted table breaks every tie in the cached order: the users sharing
   a rank and a name appear in the order the cache holds them, filtered.
   */
  lemma SortTiesKeepCachedOrder(users: seq<UserRow>, rawSearch: string, rf: RoleFilter, sf: StatusFilter, k: SortKey)
    ensures StableSort.WithKey(SortUsers(FilterUsers(users, rawSearch, rf, sf)), UserKey, k)
         == StableSort.Keep(StableSort.WithKey(users, UserKey, k), VisibleFilter(rawSearch, rf, sf))
  {
  }
}
