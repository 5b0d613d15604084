/**
 Approving or rejecting a role-elevation request. The steps run in order and
 the first failed store write ends the run:
   1. find the request in the reconciled list (an unknown id does nothing);
   2. for a synthetic request, store a formal `pending` request first;
   3. record the verdict on the request;
   4. cascade the verdict into the user's row;
   5. notify the user (best effort).
 A failed step 2, 3 or 4 sets the console's error message.
 */
module Decide {

  import opened Opt
  import opened Records
  import JsString

  datatype Verdict = Approve | Reject

  /** The outcome of storing the formal request: failure, or the identifier the store assigned. */
  datatype InsertOutcome = InsertFailed | Inserted(newId: string)

  /** What the store answers to each write of a decision. */
  datatype DecideOutcomes = DecideOutcomes(
    insert: InsertOutcome,
    reviewOk: bool,
    userOk: bool,
    notifyOk: bool)

  /**
   The writes attempted, the error message the run set (None: left as it
   was) and whether the lists are re-fetched afterwards.
   */
  datatype DecideResult = DecideResult(log: seq<Attempt>, error: Option<string>, refreshes: bool)

  /** `requests.find(r => r.id === id)`: the first request with that identifier. */
  function Find(requests: seq<ApprovalRequest>, id: string): (r: Option<ApprovalRequest>)
    ensures r.None? <==> forall i :: 0 <= i < |requests| ==> requests[i].id != id
    ensures r.Some? ==> exists i :: 0 <= i < |requests| && requests[i] == r.value
                                 && r.value.id == id
                                 && forall j :: 0 <= j < i ==> requests[j].id != id
  {
    if |requests| == 0 then None
    else if requests[0].id == id then Some(requests[0])
    else
      var r := Find(requests[1..], id);
      assert forall i :: 1 <= i < |requests| ==> requests[i] == requests[1..][i - 1];
      if r.Some? then
        var i :| 0 <= i < |requests[1..]| && requests[1..][i] == r.value && r.value.id == id
                 && forall j :: 0 <= j < i ==> requests[1..][j].id != id;
        assert requests[i + 1] == r.value;
        r
      else r
  }

  function VerdictStatus(v: Verdict): RequestStatus {
    if v == Approve then Approved else Rejected
  }

  function VerdictWord(v: Verdict): string {
    if v == Approve then "approve" else "reject"
  }

  const FailedText: string := "Failed to "

  const RetryText: string := " request. Please try again."

  /** The message shown when a decision fails. */
  function FailureMessage(v: Verdict): string {
    FailedText + VerdictWord(v) + RetryText
  }

  /** The user fields each verdict writes: approval promotes, rejection demotes. */
  function Cascade(v: Verdict): (p: UserPatch)
    ensures p.status == Active
    ensures p.userType == Admin <==> v == Approve
    ensures p.userType == RegularUser <==> v.Reject?
    ensures p.clearsRequestedRole <==> v == Approve
  {
    if v == Approve then UserPatch(Admin, Active, true) else UserPatch(RegularUser, Active, false)
  }

  const ApprovedText: string := " account request has been approved! You can now log in with your new role."

  const RejectedText: string := " account request has been rejected. Reason: "

  /** The fallback quoted when a rejection has no reason. */
  const NoReasonText: string := "No reason provided."

  /** The in-app message telling the user the outcome. */
  function OutcomeMessage(v: Verdict, role: Role, notes: Option<string>): string {
    if v == Approve then
      "Your " + RoleName(role) + ApprovedText
    else
      "Your " + RoleName(role) + RejectedText + JsString.OrElse(notes.GetOr(""), NoReasonText)
  }

  /** `notes || null`: empty notes are stored as null. */
  function StoredNotes(notes: Option<string>): (r: Option<string>)
    ensures r.Some? ==> notes == r && |r.value| > 0
    ensures r.None? ==> notes.None? || notes == Some("")
  {
    if notes.Some? && |notes.value| > 0 then notes else None
  }

  /** Steps 3 to 5 on the formal request `requestId` of user `userId`. */
  function Review(requestId: string, userId: string, role: Role, v: Verdict, notes: Option<string>,
                  reviewer: Option<string>, now: int, o: DecideOutcomes): (r: DecideResult)
    ensures |r.log| >= 1 && r.log[0] == Attempt(ReviewRequest(requestId, VerdictStatus(v), now, reviewer, StoredNotes(notes)), o.reviewOk)
    ensures HaltsOnFatal(r.log)
    ensures r.error.Some? <==> HasFatal(r.log)
    ensures r.error.Some? ==> r.error == Some(FailureMessage(v)) && !r.refreshes
    ensures o.reviewOk ==> |r.log| >= 2 && r.log[1] == Attempt(UpdateUser(userId, Cascade(v)), o.userOk)
    ensures r.error.None? ==> (r.refreshes && |r.log| == 3
      && r.log[2] == Attempt(InsertNotification(userId, OutcomeMessage(v, role, notes)), o.notifyOk))
  {
    var review := ReviewRequest(requestId, VerdictStatus(v), now, reviewer, StoredNotes(notes));
    var cascade := UpdateUser(userId, Cascade(v));
    var notify := InsertNotification(userId, OutcomeMessage(v, role, notes));
    if !o.reviewOk then
      DecideResult([Attempt(review, false)], Some(FailureMessage(v)), false)
    else if !o.userOk then
      var log := [Attempt(review, true), Attempt(cascade, false)];
      assert Fatal(log[1]);
      DecideResult(log, Some(FailureMessage(v)), false)
    else
      DecideResult([Attempt(review, true), Attempt(cascade, true), Attempt(notify, o.notifyOk)], None, true)
  }

  /** The run of a decision on the request found in the list. */
  function Run(req: ApprovalRequest, v: Verdict, notes: Option<string>,
               reviewer: Option<string>, now: int, o: DecideOutcomes): (r: DecideResult)
    ensures HaltsOnFatal(r.log)
    ensures r.error.Some? <==> HasFatal(r.log)
    ensures r.error.Some? ==> r.error == Some(FailureMessage(v))
    ensures r.refreshes <==> r.error.None?
    ensures req.isSynthetic ==>
      && |r.log| >= 1
      && r.log[0] == Attempt(InsertRequest(req.userId, req.requestedRole, Pending, StoredNotes(notes)), o.insert.Inserted?)
      && (o.insert.InsertFailed? ==> |r.log| == 1)
    ensures !req.isSynthetic || o.insert.Inserted? ==>
      var k := if req.isSynthetic then 1 else 0;
      && |r.log| == k + (if !o.reviewOk then 1 else if !o.userOk then 2 else 3)
      && r.log[k] == Attempt(ReviewRequest(ReviewedId(req, o), VerdictStatus(v), now, reviewer, StoredNotes(notes)), o.reviewOk)
      && (o.reviewOk ==> r.log[k + 1] == Attempt(UpdateUser(req.userId, Cascade(v)), o.userOk))
      && (o.reviewOk && o.userOk ==>
            r.log[k + 2] == Attempt(InsertNotification(req.userId, OutcomeMessage(v, req.requestedRole, notes)), o.notifyOk))
      && (r.error.None? <==> o.reviewOk && o.userOk)
  {
    if req.isSynthetic then
      var insert := InsertRequest(req.userId, req.requestedRole, Pending, StoredNotes(notes));
      match o.insert
      case InsertFailed =>
        var log := [Attempt(insert, false)];
        assert Fatal(log[0]);
        DecideResult(log, Some(FailureMessage(v)), false)
      case Inserted(newId) =>
        var rest := Review(newId, req.userId, req.requestedRole, v, notes, reviewer, now, o);
        PrependCommitted(Attempt(insert, true), rest.log);
        var log := [Attempt(insert, true)] + rest.log;
        assert log[1] == rest.log[0];
        assert o.reviewOk ==> log[2] == rest.log[1];
        assert o.reviewOk && o.userOk ==> log[3] == rest.log[2];
        DecideResult(log, rest.error, rest.refreshes)
    else
      Review(req.id, req.userId, req.requestedRole, v, notes, reviewer, now, o)
  }

  /** `handleApprovalAction`: an unknown identifier does nothing at all. */
  function Decide(requests: seq<ApprovalRequest>, requestId: string, v: Verdict, notes: Option<string>,
                  reviewer: Option<string>, now: int, o: DecideOutcomes): (r: DecideResult)
    ensures Find(requests, requestId).None? ==> r == DecideResult([], None, false)
    ensures HaltsOnFatal(r.log)
    ensures r.error.Some? <==> HasFatal(r.log)
    ensures r.error.Some? ==> r.error == Some(FailureMessage(v))
    ensures r.refreshes <==> Find(requests, requestId).Some? && r.error.None?
  {
    match Find(requests, requestId)
    case None => DecideResult([], None, false)
    case Some(req) => Run(req, v, notes, reviewer, now, o)
  }

  /**
   Deciding on a synthetic request first stores it as a formal pending
   request for the same user and role; when that fails nothing else is written.
   */
  lemma SyntheticMaterialisedFirst(requests: seq<ApprovalRequest>, requestId: string, v: Verdict, notes: Option<string>,
                                   reviewer: Option<string>, now: int, o: DecideOutcomes)
    requires Find(requests, requestId).Some? && Find(requests, requestId).value.isSynthetic
    ensures var req := Find(requests, requestId).value;
            var r := Decide(requests, requestId, v, notes, reviewer, now, o);
            && |r.log| >= 1
            && r.log[0].write == InsertRequest(req.userId, req.requestedRole, Pending, StoredNotes(notes))
            && (o.insert.InsertFailed? ==> |r.log| == 1 && r.error == Some(FailureMessage(v)))
  {
    var req := Find(requests, requestId).value;
    var r := Run(req, v, notes, reviewer, now, o);
    if o.insert.InsertFailed? {
      assert Fatal(r.log[0]);
    }
  }

  /** The request identifier the verdict is written to: the stored one, or the one just assigned. */
  function ReviewedId(req: ApprovalRequest, o: DecideOutcomes): string {
    if req.isSynthetic && o.insert.Inserted? then o.insert.newId else req.id
  }

  /**
   When recording the verdict or updating the user fails on the formal
   request, the decision stops there: no later write is attempted, the
   failure message is set and the lists are not re-fetched.
   */
  lemma FailedWriteStopsDecision(requests: seq<ApprovalRequest>, requestId: string, v: Verdict, notes: Option<string>,
                                 reviewer: Option<string>, now: int, o: DecideOutcomes)
    requires Find(requests, requestId).Some?
    requires !Find(requests, requestId).value.isSynthetic || o.insert.Inserted?
    requires !(o.reviewOk && o.userOk)
    ensures var req := Find(requests, requestId).value;
            var r := Decide(requests, requestId, v, notes, reviewer, now, o);
            var k := if req.isSynthetic then 1 else 0;
            && |r.log| == k + (if o.reviewOk then 2 else 1)
            && r.log[k] == Attempt(ReviewRequest(ReviewedId(req, o), VerdictStatus(v), now, reviewer, StoredNotes(notes)), o.reviewOk)
            && (o.reviewOk ==> r.log[k + 1] == Attempt(UpdateUser(req.userId, Cascade(v)), false))
            && (forall i :: 0 <= i < |r.log| ==> !r.log[i].write.InsertNotification?)
            && r.error == Some(FailureMessage(v)) && !r.refreshes
  {
    var req := Find(requests, requestId).value;
    var r := Run(req, v, notes, reviewer, now, o);
    if req.isSynthetic {
      assert r.log[0].write.InsertRequest?;
    }
  }

  /**
   When every write goes through, the verdict is recorded on the formal
   request, the user row gets the verdict's cascade, and the user receives
   exactly one notification, as the last write.
   */
  lemma CascadeOnSuccess(req: ApprovalRequest, v: Verdict, notes: Option<string>,
                         reviewer: Option<string>, now: int, o: DecideOutcomes)
    requires !o.insert.InsertFailed? && o.reviewOk && o.userOk
    ensures var r := Run(req, v, notes, reviewer, now, o);
            var n := |r.log|;
            && r.error == None && r.refreshes
            && n == (if req.isSynthetic then 4 else 3)
            && r.log[n - 3] == Attempt(ReviewRequest(ReviewedId(req, o), VerdictStatus(v), now, reviewer, StoredNotes(notes)), true)
            && r.log[n - 2] == Attempt(UpdateUser(req.userId, Cascade(v)), true)
            && r.log[n - 1].write == InsertNotification(req.userId, OutcomeMessage(v, req.requestedRole, notes))
  {
    var r := Run(req, v, notes, reviewer, now, o);
    var rest := Review(ReviewedId(req, o), req.userId, req.requestedRole, v, notes, reviewer, now, o);
    assert rest.log[0] == Attempt(ReviewRequest(ReviewedId(req, o), VerdictStatus(v), now, reviewer, StoredNotes(notes)), true);
    assert rest.log[1] == Attempt(UpdateUser(req.userId, Cascade(v)), true);
    assert rest.log[2].write == InsertNotification(req.userId, OutcomeMessage(v, req.requestedRole, notes));
  }

  lemma ReviewIgnoresNotify(requestId: string, userId: string, role: Role, v: Verdict, notes: Option<string>,
                            reviewer: Option<string>, now: int, o: DecideOutcomes, o': DecideOutcomes)
    requires o.reviewOk == o'.reviewOk && o.userOk == o'.userOk
    ensures var a := Review(requestId, userId, role, v, notes, reviewer, now, o);
            var a' := Review(requestId, userId, role, v, notes, reviewer, now, o');
            SameWrites(a.log, a'.log) && a.error == a'.error && a.refreshes == a'.refreshes
  {
    var a := Review(requestId, userId, role, v, notes, reviewer, now, o);
    var a' := Review(requestId, userId, role, v, notes, reviewer, now, o');
    if !o.reviewOk || !o.userOk {
      assert a == a';
    } else {
      var review := ReviewRequest(requestId, VerdictStatus(v), now, reviewer, StoredNotes(notes));
      var notify := InsertNotification(userId, OutcomeMessage(v, role, notes));
      assert a.log == [Attempt(review, true), Attempt(UpdateUser(userId, Cascade(v)), true), Attempt(notify, o.notifyOk)];
      assert a'.log == [Attempt(review, true), Attempt(UpdateUser(userId, Cascade(v)), true), Attempt(notify, o'.notifyOk)];
    }
  }

  /**
   The notification is best effort: whether it goes through changes neither
   the writes attempted, nor the error, nor the refresh.
   */
  lemma NotificationIsBestEffort(req: ApprovalRequest, v: Verdict, notes: Option<string>,
                                 reviewer: Option<string>, now: int, o: DecideOutcomes, o': DecideOutcomes)
    requires o.insert == o'.insert && o.reviewOk == o'.reviewOk && o.userOk == o'.userOk
    ensures var r := Run(req, v, notes, reviewer, now, o);
            var r' := Run(req, v, notes, reviewer, now, o');
            SameWrites(r.log, r'.log) && r.error == r'.error && r.refreshes == r'.refreshes
  {
    var r := Run(req, v, notes, reviewer, now, o);
    var r' := Run(req, v, notes, reviewer, now, o');
    var a := Review(ReviewedId(req, o), req.userId, req.requestedRole, v, notes, reviewer, now, o);
    var a' := Review(ReviewedId(req, o), req.userId, req.requestedRole, v, notes, reviewer, now, o');
    ReviewIgnoresNotify(ReviewedId(req, o), req.userId, req.requestedRole, v, notes, reviewer, now, o, o');
    if !req.isSynthetic {
      assert r == a && r' == a';
    } else if o.insert.InsertFailed? {
      assert r == r';
    } else {
      assert r.log[1..] == a.log && r'.log[1..] == a'.log;
      assert r.error == a.error && r'.error == a'.error;
      forall i | 1 <= i < |r.log| ensures r.log[i].write == r'.log[i].write {
        assert r.log[i] == a.log[i - 1] && r'.log[i] == a'.log[i - 1];
      }
    }
  }

  /** `handleSubmitApproval`: the dialog's notes, trimmed, with blank notes passed as absent. */
  function SubmittedNotes(rawNotes: string): (r: Option<string>)
    ensures r.Some? ==> |r.value| > 0 && r.value == JsString.Trim(rawNotes)
    ensures r.None? <==> JsString.Trim(rawNotes) == ""
  {
    JsString.NonEmpty(JsString.Trim(rawNotes))
  }

  /** Whether the dialog's confirm button is enabled: a rejection needs a non-blank reason. */
  predicate SubmitEnabled(submitting: bool, v: Verdict, rawNotes: string) {
    !submitting && !(v == Reject && JsString.Trim(rawNotes) == "")
  }

  /** `handleSubmitApproval`: decides the dialog's target with the submitted notes. */
  function SubmitApproval(target: Option<ApprovalRequest>, requests: seq<ApprovalRequest>, v: Verdict,
                          rawNotes: string, reviewer: Option<string>, now: int, o: DecideOutcomes): (r: Option<DecideResult>)
    ensures target.None? <==> r.None?
    ensures target.Some? ==> r == Some(Decide(requests, target.value.id, v, SubmittedNotes(rawNotes), reviewer, now, o))
  {
    if target.None? then None
    else Some(Decide(requests, target.value.id, v, SubmittedNotes(rawNotes), reviewer, now, o))
  }

  /** Every verdict the run records on a request carries the notes as stored: `notes || null`. */
  lemma RunRecordsNotes(req: ApprovalRequest, v: Verdict, notes: Option<string>,
                        reviewer: Option<string>, now: int, o: DecideOutcomes)
    ensures var r := Run(req, v, notes, reviewer, now, o);
            forall i :: 0 <= i < |r.log| && r.log[i].write.ReviewRequest? ==> r.log[i].write.notes == StoredNotes(notes)
  {
    var r := Run(req, v, notes, reviewer, now, o);
    var id := ReviewedId(req, o);
    var rest := Review(id, req.userId, req.requestedRole, v, notes, reviewer, now, o);
    ReviewRecordsNotes(id, req.userId, req.requestedRole, v, notes, reviewer, now, o);
    if !req.isSynthetic {
      assert r == rest;
    } else if o.insert.InsertFailed? {
      assert |r.log| == 1 && r.log[0].write.InsertRequest?;
    } else {
      assert r.log[1..] == rest.log && r.log[0].write.InsertRequest?;
      forall i | 1 <= i < |r.log| ensures r.log[i] == rest.log[i - 1] {
        assert r.log[1..][i - 1] == r.log[i];
      }
    }
  }

  lemma ReviewRecordsNotes(requestId: string, userId: string, role: Role, v: Verdict, notes: Option<string>,
                           reviewer: Option<string>, now: int, o: DecideOutcomes)
    ensures var r := Review(requestId, userId, role, v, notes, reviewer, now, o);
            forall i :: 0 <= i < |r.log| && r.log[i].write.ReviewRequest? ==> i == 0 && r.log[i].write.notes == StoredNotes(notes)
  {
  }

  /**
   A rejection confirmed from an enabled dialog records its reason, trimmed
   and non-empty, on the request.
   */
  lemma EnabledRejectRecordsReason(target: ApprovalRequest, requests: seq<ApprovalRequest>, rawNotes: string,
                                   reviewer: Option<string>, now: int, o: DecideOutcomes)
    requires SubmitEnabled(false, Reject, rawNotes)
    ensures var r := SubmitApproval(Some(target), requests, Reject, rawNotes, reviewer, now, o).value;
            forall i :: 0 <= i < |r.log| && r.log[i].write.ReviewRequest? ==>
              r.log[i].write.notes == Some(JsString.Trim(rawNotes)) && |JsString.Trim(rawNotes)| > 0
  {
    var notes := SubmittedNotes(rawNotes);
    assert StoredNotes(notes) == Some(JsString.Trim(rawNotes));
    match Find(requests, target.id)
    case None =>
    case Some(req) =>
      RunRecordsNotes(req, Reject, notes, reviewer, now, o);
  }
}
