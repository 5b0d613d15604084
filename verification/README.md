# Superadmin console and admin route gate — a Dafny model

This project models the moderation core of a disaster-reporting web app's
superadmin console. It also models the route gate that protects the app's
admin pages. The model covers:

- **Approval requests.** Stored role-elevation requests are merged with
  synthetic ones. A synthetic request is inferred for each user whose
  status is `pending_admin` and who has no stored request. The merged list
  is sorted newest first.
- **Deciding a request.** Approving or rejecting runs as a chain of store
  writes. A synthetic request is first stored as a formal one, the verdict
  is recorded, the user's row gets the verdict's cascade, and the user is
  notified on a best-effort basis.
- **Banning and unbanning.** The day count is validated the way
  `parseInt` reads it, the expiry is computed, the ban status is written,
  and the best-effort notifications and e-mails follow.
- **The user table.** Search and filters, ordering by role rank and then
  name, pages of fifteen rows, and the "showing from–to of total" summary.
- **The cached user list.** The change-feed merge, the optimistic role
  change, and the superadmin guard where row actions are offered.
- **The route gate.** The middleware's decision for a request: pass it on,
  or redirect.

Remote writes are not performed. Each workflow returns the log of writes it
attempts. Each write in the log carries whether the store accepted it, and
those outcomes are inputs to the workflow. The current time is a parameter
in milliseconds, and so is the identity of the superadmin deciding a request. Each workflow also
returns the console's error message and what the dialog or list does next.

Modules, one per file:

| module | file | models |
|---|---|---|
| `Opt`, `JsString` | jsstring.dfy | `Option`, `trim`, `toLowerCase`, `startsWith`, `includes`, `x \|\| fallback` on strings |
| `JsNumber` | jsnumber.dfy | `parseInt(s, 10)` |
| `StableSort` | stablesort.dfy | the stable `Array.prototype.sort`, and `filter` |
| `LexOrder` | lexorder.dfy | the name order used in place of `localeCompare` |
| `Records` | records.dfy | users, approval requests, the write log, fatal versus best-effort writes |
| `Reconcile` | reconcile.dfy | `fetchApprovalRequests` |
| `Decide` | decide.dfy | `handleApprovalAction`, `handleSubmitApproval` |
| `Moderation` | moderation.dfy | `handleSubmitBan`, `handleUnban`, their dialogs' confirm buttons |
| `UserList` | userlist.dfy | `filteredUsers`, `sortedUsers`, pagination, `filteredApprovalRequests` |
| `LiveCache` | livecache.dfy | `fetchUsers`, the change feed, `handleRoleChange`, row actions |
| `RouteGate` | routegate.dfy | `authSessionMiddleware` and its prefix lists |

Where the code behaves differently from what its interface text or names
suggest, the model follows the code:

- **Notes on a decision.** The verdict and the formal request store the
  notes as `notes || null`. Empty notes become null, and notes already on
  a request are never kept.
- **Required reasons.** A rejection needs a reason, and so do a ban and
  an unban, but only because the confirm buttons are disabled without one.
  The handlers themselves accept blank reasons.
- **Superadmin rows.** They are protected only where the table offers
  actions: the role selector and the ban/unban button. `ChangeRole`
  itself writes any role to any row.
- **Stale list in the role change.** The role change computes both its
  in-flight and its settled list from the list as it was when the change
  began.
- **The route gate.** Paths are classified with `startsWith`, so
  `/administrator` is gated like `/admin`.

## Model

| member | source | states |
|---|---|---|
| Reconcile.SyntheticId | components/superadmin-dashboard.tsx:155 | a synthetic id is `pending-` followed by the user id, which can be read back from it |
| Reconcile.SyntheticIdInjective | components/superadmin-dashboard.tsx:155 | distinct users never share a synthetic request id |
| Reconcile.PendingAdminUsers | components/superadmin-dashboard.tsx:137-140 | the pending-users query returns exactly the users whose status is `pending_admin` |
| Reconcile.RequestUserIds | components/superadmin-dashboard.tsx:147 | the set of user ids holds exactly the users named by some stored request, whatever its status |
| Reconcile.SynthesizeAll | components/superadmin-dashboard.tsx:151-169 | one synthetic request per user, in order, and nothing else |
| Reconcile.SyntheticRequests | components/superadmin-dashboard.tsx:149-169 | a synthetic request exists exactly for each pending user with no stored request, and is flagged synthetic |
| Reconcile.Reconcile | components/superadmin-dashboard.tsx:146-173 | the result is a permutation of stored plus synthetic requests; it is ordered newest first; among equal times, stored requests keep their order ahead of synthetic ones |
| Reconcile.SyntheticOnlyForPendingAdmins | components/superadmin-dashboard.tsx:137-150 | fed with the `pending_admin` query, reconciliation gives a user a synthetic request exactly when their status is `pending_admin` and no stored request names them |
| Reconcile.ReconcileMembers | components/superadmin-dashboard.tsx:171-173 | a request is in the reconciled list exactly when it is stored or synthetic |
| Reconcile.SyntheticExactlyForUnfiled | components/superadmin-dashboard.tsx:147-150 | the reconciled list holds a synthetic request for a user exactly when the user is pending and no stored request of any status names them |
| Reconcile.SyntheticFields | components/superadmin-dashboard.tsx:151-169 | every synthetic request in the reconciled list belongs to a pending user without a stored request, has id `pending-<user id>`, asks for admin, is pending, has no notes and no review, and is dated at sign-up or now |
| Reconcile.ReconcileOfFiled | components/superadmin-dashboard.tsx:146-173 | when every pending user has a stored request, nothing is synthesized; a list already newest first comes back unchanged |
| Reconcile.LoadApprovalRequests | components/superadmin-dashboard.tsx:121-182 | if either query fails, the previous list stays and the load error is set; otherwise null data counts as empty and the list is reconciled |
| Decide.Find | components/superadmin-dashboard.tsx:186-187 | returns the first request with the id, or nothing exactly when no request has it |
| Decide.StoredNotes | components/superadmin-dashboard.tsx:231 | empty or missing notes are stored as null; any other notes are stored as given |
| Decide.Cascade | components/superadmin-dashboard.tsx:238-273 | both verdicts make the user active; approval makes them admin and clears the requested role, rejection makes them a regular user and leaves it |
| Decide.Review | components/superadmin-dashboard.tsx:222-294 | the verdict write comes first, then the user cascade; the first failed write ends the run with the failure message; on success exactly one notification follows and the lists refresh |
| Decide.Run | components/superadmin-dashboard.tsx:189-294 | the run halts at its first failed required write; the error is set exactly when a required write failed; a refresh happens exactly on success; a synthetic request is first inserted as `pending`; once the formal request exists, the verdict is written to it, the user update follows only a successful verdict write, the best-effort notification with its own outcome follows only when both succeed, the log ends after the first failure, and the run succeeds exactly when both writes go through |
| Decide.Decide | components/superadmin-dashboard.tsx:184-294 | an unknown id writes nothing and sets no error; otherwise the properties of `Run` hold |
| Decide.FailedWriteStopsDecision | components/superadmin-dashboard.tsx:224-292 | when the verdict write or the user update fails on the formal request, nothing after it is attempted (no notification), the failure message is set, and the lists are not re-fetched |
| Decide.SyntheticMaterialisedFirst | components/superadmin-dashboard.tsx:192-212 | deciding a synthetic request first inserts a pending request for the same user and role; if that insert fails, nothing else is written and the error is set |
| Decide.CascadeOnSuccess | components/superadmin-dashboard.tsx:225-285 | when every required write succeeds, the verdict lands on the formal request id, the user row gets the verdict's cascade, and one outcome notification is the last write |
| Decide.ReviewIgnoresNotify | components/superadmin-dashboard.tsx:253-284 | whether the notification is accepted does not change the review's writes, error or refresh |
| Decide.NotificationIsBestEffort | components/superadmin-dashboard.tsx:253-284 | whether the notification is accepted changes neither the writes attempted, nor the error, nor the refresh of the whole decision |
| Decide.SubmittedNotes | components/superadmin-dashboard.tsx:623 | the dialog passes its trimmed notes, or nothing exactly when they trim to empty |
| Decide.SubmitApproval | components/superadmin-dashboard.tsx:618-631 | with no target nothing happens; otherwise the target's id is decided with the submitted notes |
| Decide.ReviewRecordsNotes | components/superadmin-dashboard.tsx:225-232 | the review writes exactly one verdict, first, carrying the notes as stored |
| Decide.RunRecordsNotes | components/superadmin-dashboard.tsx:225-232 | every verdict a decision records carries the notes as `notes \|\| null` |
| Decide.EnabledRejectRecordsReason | components/superadmin-dashboard.tsx:991 | a rejection confirmed while its button is enabled records a non-empty trimmed reason on the request |
| Records.ParseRole | components/superadmin-dashboard.tsx:25 | a stored `user_type` maps to a canonical role whose spelling is the stored string: the three known spellings to their roles, any other string to an unknown role |
| Records.ParseRoleName | components/superadmin-dashboard.tsx:25 | reading back the spelling of a canonical role gives the role itself |
| Records.PrependCommitted | components/superadmin-dashboard.tsx:212-222 | a write that went through, put before the rest of a run, changes neither whether the run failed nor whether it halted at its first failure |
| Moderation.BanDays | components/superadmin-dashboard.tsx:443-448 | the day count is accepted exactly when `parseInt` of the field, with empty read as `0`, is a finite number above zero, and it is that number |
| Moderation.BanWrite | components/superadmin-dashboard.tsx:452 | the ban-status write bans the target with the expiry; its reason is the trimmed reason, absent exactly when that is blank |
| Moderation.ThrownMessage | components/superadmin-dashboard.tsx:483 | the dialog shows the thrown message, or the fallback exactly when the message is empty |
| Moderation.BanExpiry | components/superadmin-dashboard.tsx:441-450 | a permanent ban has no expiry; a temporary one is refused exactly when the day count is invalid, or the date is out of range; otherwise it expires that many days after now |
| Moderation.Guarded | components/superadmin-dashboard.tsx:452-483 | the primary write comes first; if it throws, nothing else is attempted and the error is shown; otherwise every side effect is attempted and the dialog closes |
| Moderation.BanEffects | components/superadmin-dashboard.tsx:454-478 | the ban's side effects are all best-effort writes |
| Moderation.Ban | components/superadmin-dashboard.tsx:436-487 | a refused expiry writes nothing and shows its message; otherwise the ban write comes first, then notification and e-mail only if it went through; the dialog closes exactly when it went through |
| Moderation.SubmitBan | components/superadmin-dashboard.tsx:436-437 | with no target nothing happens |
| Moderation.UnbanEffects | components/superadmin-dashboard.tsx:505-533 | the unban's side effects are all best-effort writes |
| Moderation.Unban | components/superadmin-dashboard.tsx:496-542 | the unban write comes first; then, only if it went through, the notification, e-mail and admin notice; the dialog closes exactly when it went through |
| Moderation.SubmitUnban | components/superadmin-dashboard.tsx:496-497 | with no target nothing happens |
| Moderation.GuardedSameWrites | components/superadmin-dashboard.tsx:454-478 | side effects that attempt the same writes leave the same writes, error and closing, whatever their outcomes |
| Moderation.BanSideEffectsIndependent | components/superadmin-dashboard.tsx:454-478 | whether the ban's notification or e-mail goes through changes neither the writes, nor the error, nor the closing |
| Moderation.UnbanSideEffectsIndependent | components/superadmin-dashboard.tsx:505-533 | whether the unban's three side effects go through changes neither the writes, nor the error, nor the closing |
| Moderation.TemporaryBanExpiry | components/superadmin-dashboard.tsx:443-449 | a day count typed as a positive numeral, with or without trailing non-digits, bans until exactly that many days after now |
| Moderation.DefaultSevenDays | components/superadmin-dashboard.tsx:427-449 | the dialog's default of `7` bans for exactly 604,800,000 ms |
| Moderation.TypedDaysQuotedVerbatim | components/superadmin-dashboard.tsx:443-461 | the expiry uses the number `parseInt` reads while the notification quotes the field as typed |
| Moderation.EmptyDaysRefused | components/superadmin-dashboard.tsx:443-447 | an empty day field is refused with the validation message before any write |
| Moderation.ZeroDaysRefused | components/superadmin-dashboard.tsx:443-447 | a day count reading as zero is refused before any write |
| Moderation.NegativeDaysRefused | components/superadmin-dashboard.tsx:443-447 | a day count with a leading minus is refused before any write |
| Moderation.DigitlessDaysRefused | components/superadmin-dashboard.tsx:443-447 | a day count without any digit is refused before any write |
| Moderation.EnabledBanRecordsReason | components/superadmin-dashboard.tsx:910 | a ban confirmed while its button is enabled stores the trimmed reason, and the notification and the e-mail quote the reason as typed rather than the fallback |
| Moderation.EnabledUnbanQuotesReason | components/superadmin-dashboard.tsx:944 | an unban confirmed while its button is enabled quotes the typed reason in the notification and the e-mail |
| UserList.DisplayName | components/superadmin-dashboard.tsx:548 | the middle name appears between first and last names exactly when it is present and non-empty |
| UserList.FilterUsers | components/superadmin-dashboard.tsx:544-562 | keeps exactly the users matching search, role and status, each as often as in the list, and in the cached order: for every sort key, the users with that key are the cached ones, filtered |
| UserList.FilterNothing | components/superadmin-dashboard.tsx:545-547 | a blank search with no role or status filter lists every user, in order |
| UserList.StatusFiltersPartition | components/superadmin-dashboard.tsx:554-558 | the active and banned filters split the listed users between them |
| UserList.RoleRank | components/superadmin-dashboard.tsx:565-568 | superadmin, admin and user rank 0, 1 and 2; any other role ranks last |
| UserList.SortUsers | components/superadmin-dashboard.tsx:564-575 | a permutation ordered by role rank, then, within equal ranks, by lower-cased name; rows tying on both keep their order |
| UserList.TotalPages | components/superadmin-dashboard.tsx:581 | one page for an empty list, otherwise exactly as many pages of fifteen as the rows need |
| UserList.GoToPage | components/superadmin-dashboard.tsx:602-607 | the page is clamped into the valid range, and kept when already in it |
| UserList.ClampPage | components/superadmin-dashboard.tsx:583-587 | a page past the last is pulled back to the last; any other page stays |
| UserList.Slice | components/superadmin-dashboard.tsx:591 | an in-range slice is the subsequence between its bounds |
| UserList.PageRows | components/superadmin-dashboard.tsx:589-592 | a page holds at most fifteen rows: the list's rows from the page's start onward |
| UserList.ShowingRange | components/superadmin-dashboard.tsx:594-600 | an empty list shows `0-0 of 0`; otherwise from the page's first position up to its last, capped at the total |
| UserList.RangeMatchesRows | components/superadmin-dashboard.tsx:589-600 | on every valid page of a non-empty list, the summary names exactly the rows shown |
| UserList.PagesCoverList | components/superadmin-dashboard.tsx:589-592 | every row appears on a valid page, at its position within the page |
| UserList.StepStaysInRange | components/superadmin-dashboard.tsx:844-862 | an enabled Previous or Next button moves exactly one page and stays in range |
| UserList.SetFilters | components/superadmin-dashboard.tsx:577-579 | changing the search or a filter returns to page one |
| UserList.Shown | components/superadmin-dashboard.tsx:544-592 | the table shows at most fifteen rows, each a cached user passing the filters |
| UserList.FilterChangeShowsFirstPage | components/superadmin-dashboard.tsx:577-592 | after a filter change the table shows the first fifteen rows of the newly sorted list |
| UserList.SortTiesKeepCachedOrder | components/superadmin-dashboard.tsx:544-575 | in the sorted table, the users sharing a rank and a name appear in the cached order, filtered |
| UserList.FilterRequests | components/superadmin-dashboard.tsx:633-636 | `all` keeps the list; a status keeps exactly the requests with it, each as often as before; a newest-first list stays newest first |
| LiveCache.MapRow | components/superadmin-dashboard.tsx:312-319 | the rows with the id are transformed and every other row is untouched |
| LiveCache.ApplyUpdate | components/superadmin-dashboard.tsx:311-319 | the incoming row replaces the cached row with its id, which keeps its local `isUpdating`; other rows are untouched |
| LiveCache.ApplyUnknownId | components/superadmin-dashboard.tsx:311-319 | an update for a user not in the list changes nothing |
| LiveCache.ApplyIdempotent | components/superadmin-dashboard.tsx:311-319 | delivering the same update twice equals delivering it once |
| LiveCache.ApplyCommutes | components/superadmin-dashboard.tsx:311-319 | updates for different users commute |
| LiveCache.ApplyLaterWins | components/superadmin-dashboard.tsx:311-319 | of two updates for one user, the later wins |
| LiveCache.ChangeRole | components/superadmin-dashboard.tsx:401-423 | one role write; the row is marked updating in flight; once settled it shows the new role on success, or the old one with the error on failure |
| LiveCache.RoleChangeSettles | components/superadmin-dashboard.tsx:409-421 | after settling, no row of the user is marked updating; a failure changes no role; a success changes exactly that user's role |
| LiveCache.RowModeration | components/superadmin-dashboard.tsx:824-830 | superadmin rows offer no action; banned rows offer unban; others offer ban |
| LiveCache.SelectRole | components/superadmin-dashboard.tsx:768-772 | the selector ignores superadmin rows and otherwise starts the role change |
| LiveCache.SuperadminRowImmutable | components/superadmin-dashboard.tsx:768-773 | a superadmin row starts no role write, offers no ban or unban, and its selector is disabled |
| LiveCache.RoleWritesSpareSuperadmins | components/superadmin-dashboard.tsx:770-771 | every role write the table starts targets a non-superadmin row with the chosen role |
| LiveCache.LoadUsers | components/superadmin-dashboard.tsx:104-118 | a failed or null load keeps the list and sets the error; otherwise the fetched rows, none marked updating |
| LiveCache.LoadedRowsSelectable | components/superadmin-dashboard.tsx:108-111 | after a successful load no row is marked updating, so the role selector is enabled exactly on non-superadmin rows |
| LiveCache.UnmarkAll | components/superadmin-dashboard.tsx:108-111 | every fetched row is kept as is, with `isUpdating` cleared |
| RouteGate.MatchesAny | middleware/auth-session.ts:39 | a path matches exactly when it starts with one of the prefixes |
| RouteGate.Gate | middleware/auth-session.ts:30-95 | no session read outside production or on public paths; only protected paths are redirected; the profile is read only after the session passes the metadata role check |
| RouteGate.ProtectedIsAdmin | middleware/auth-session.ts:17-18 | the protected and admin prefixes classify paths identically, as those starting with `/admin` |
| RouteGate.AdminNotPublic | middleware/auth-session.ts:17-28 | no admin path is public |
| RouteGate.AdministratorIsGated | middleware/auth-session.ts:17-28 | `/administrator` is protected and not public |
| RouteGate.PassIffAuthorised | middleware/auth-session.ts:48-94 | in production an admin path is served exactly when the session, its metadata role, and the stored profile's role all admit the user |
| RouteGate.NoSessionRemembersPath | middleware/auth-session.ts:50-55 | an admin path without a session redirects home and remembers the path |
| RouteGate.WrongMetadataRoleUnauthorized | middleware/auth-session.ts:58-61 | a non-admin metadata role redirects to `/unauthorized` before the profile is read |
| RouteGate.ProfileRefusedRedirectsHome | middleware/auth-session.ts:71-91 | once the session passes, a thrown lookup, a missing profile, a read error or a non-admin profile role redirects home without `redirectedFrom`, after reading the session and the profile |
| RouteGate.UnprotectedPasses | middleware/auth-session.ts:48-94 | a path outside `/admin` always passes |
| JsString.Trim | components/superadmin-dashboard.tsx:545 | the trimmed string is no longer than the input, and neither starts nor ends with white space |
| JsString.TrimStartDropsBlank | components/superadmin-dashboard.tsx:545 | the leading trim keeps a suffix of the input and drops only white space before it |
| JsString.TrimEndDropsBlank | components/superadmin-dashboard.tsx:545 | the trailing trim keeps a prefix of the input and drops only white space after it |
| JsString.TrimFlanked | components/superadmin-dashboard.tsx:545 | the trimmed string is a slice of the input flanked only by white space |
| JsString.TrimIdempotent | components/superadmin-dashboard.tsx:545 | trimming twice equals trimming once |
| JsString.TrimEmptyIffBlank | components/superadmin-dashboard.tsx:623 | a string trims to empty exactly when it is all white space |
| JsNumber.ParseInt | components/superadmin-dashboard.tsx:443 | no digit at all gives NaN; a non-zero finite result needs a non-zero digit in the string |
| JsNumber.ParseIntOfDecimal | components/superadmin-dashboard.tsx:443 | the numeral of any number below the overflow threshold, followed by text not starting with a digit, reads back as that number |
| JsNumber.MinusNeverPositive | components/superadmin-dashboard.tsx:443-444 | a string starting with a minus never reads as a positive number |
| JsNumber.ParseIntSkipsLeadingSpace | components/superadmin-dashboard.tsx:443 | leading white space does not change what is read |
| StableSort.SortSorted | components/superadmin-dashboard.tsx:566 | the sort's result is ordered |
| StableSort.SortStable | components/superadmin-dashboard.tsx:566 | elements with equal keys keep their relative order |
| StableSort.SortOfSorted | components/superadmin-dashboard.tsx:566 | sorting an ordered list returns it unchanged |
| StableSort.KeepCount | components/superadmin-dashboard.tsx:546 | filtering keeps each selected element as often as it occurs and drops the rest |
| StableSort.KeepWithKey | components/superadmin-dashboard.tsx:546 | filtering keeps order: the elements with any one key are those of the input with that key, filtered |
| StableSort.KeepSorted | components/superadmin-dashboard.tsx:635 | filtering a sorted list leaves it sorted |
| StableSort.KeepSplit | components/superadmin-dashboard.tsx:554-558 | two filters that partition a third split its result's length |
| LexOrder.LexStrictTotalOrder | components/superadmin-dashboard.tsx:573 | the name order is a strict total order, so the sort is well defined |

## Left out

- Remote I/O is not performed: the store client, the change-feed subscription, `fetch` to the e-mail routes and `getSession`. Their outcomes are inputs to the workflows.
- The greeting clock, the logout flow and the loading spinners are not modelled; they never change what is written.
- The `isSubmitting` flags appear only as the `submitting` argument of `Decide.SubmitEnabled` and `Moderation.ReasonSubmitEnabled`. While a run is in flight they disable the confirm button, so a second click writes nothing. Each run is modelled as atomic, so within one run they change nothing that is written.
- Page layout and styling are not modelled.
- React state batching and effect scheduling are not modelled. Each handler is modelled as one atomic run over the state it reads.
- RouteGate.Gate: one `path` stands for both the pathname the middleware classifies (that of `new URL(request.url)`) and the `redirectedFrom` it records (`request.nextUrl.pathname`). The two agree unless the app configures a `basePath` or i18n routing, which is not modelled.
- `sha256Hex` in the middleware is unused by the decision and is not modelled. `NODE_ENV` is the `production` parameter.
- `userQueries` (the store helpers behind `getAllUsers`, `updateUserRole` and `updateUserBanStatus`) is not part of this model. Only the arguments passed to it are recorded, not what the store does with them.
- Dates are modelled as integers of milliseconds. Parsing date strings, and the `NaN` the request comparator yields on an unparsable date, are not modelled.
- E-mail bodies and the request's joined `user` fields are not modelled. Only the fields the console sends are recorded.
- JsString.ToLower: lower-cases ASCII letters only, because full Unicode case mapping is a large table. Non-ASCII capitals such as `Ñ` are not folded, so a search for `niño` does not find `NIÑO` in the model, though the program would.
- LexOrder.LexLess: replaces `localeCompare` with code-point order, because locale collation is host-defined. Only the tie-breaking among equal role ranks depends on it.
- JsNumber.ParseInt: values below the overflow threshold are kept exact rather than rounded to a double. Any day count that large already fails the date-range check, so the ban's outcome is unaffected.
- Decide.Run: for a synthetic request, the formal request the store returns is taken to carry the inserted user and role. Only its new id is an input.
- Decide.SubmitApproval: the approval dialog's open state is not modelled. The program closes the dialog after every decision, failed or not, because the decision never throws.
- Decide.Decide: the deciding superadmin's id from `getUser` is a parameter. A failure of that lookup, which the code maps to a null `reviewed_by`, is covered by passing `None`.
- Moderation.BanExpiry: the out-of-range message is the text V8 gives a `RangeError` from `toISOString`. Other engines may word it differently.
