/**
 Banning and unbanning a user from the console's dialogs. Each action makes
 one primary write, the ban status, and only when that write goes through
 does it attempt its side effects: an in-app notification, an e-mail and,
 for an unban, a notice to the administrators. Each side effect is tried on
 its own and its failure is swallowed.
 */
module Moderation {

  import opened Opt
  import opened Records
  import JsString
  import JsNumber

  datatype BanKind = Temporary | Permanent

  /** How the primary ban-status write ended: it went through, or threw with a message (possibly empty). */
  datatype PrimaryOutcome = Committed | Threw(message: string)

  datatype BanOutcomes = BanOutcomes(primary: PrimaryOutcome, notifyOk: bool, emailOk: bool)

  datatype UnbanOutcomes = UnbanOutcomes(primary: PrimaryOutcome, notifyOk: bool, emailOk: bool, noticeOk: bool)

  /** The writes attempted, the dialog's error afterwards (None: cleared) and whether the dialog closed. */
  datatype DialogResult = DialogResult(log: seq<Attempt>, error: Option<string>, closed: bool)

  /** Milliseconds in a day: `24 * 60 * 60 * 1000`. */
  const DayMillis: int := 86_400_000

  /** The largest magnitude of a time value a `Date` accepts (section 21.4.1.1 of ECMA-262). */
  const MaxTimeValue: int := 8_640_000_000_000_000

  const InvalidDaysMessage: string := "Please enter a valid number of days (> 0)."

  /** The message of the `RangeError` that `toISOString` throws on a time value out of range. */
  const InvalidTimeMessage: string := "Invalid time value"

  const BanFailedMessage: string := "Failed to ban user."

  const UnbanFailedMessage: string := "Failed to unban user."

  /** The fallback quoted when a ban has no reason. */
  const NoReasonText: string := "No reason provided."

  const PermanentBanText: string := "Your account has been permanently banned. Reason: "

  const TemporaryBanText: string := "Your account has been banned for "

  const DaysReasonText: string := " day(s). Reason: "

  const UnbanText: string := "Your account ban has been lifted. Message from admin: "

  const UnbanMessageFallback: string := "You may now use the app again."

  const UnbanEmailFallback: string := "Your account access has been restored."

  const UnbannedText: string := " has been unbanned."

  /** The kind of the administrators' notice an unban leaves. */
  const UnbannedKind: string := "user_unbanned"

  /** `parseInt(days || '0', 10)`, accepted only when finite and positive. */
  function BanDays(rawDays: string): (r: Option<nat>)
    ensures r.Some? <==> (var n := JsNumber.ParseInt(JsString.OrElse(rawDays, "0")); n.Finite? && n.value > 0)
    ensures r.Some? ==> r.value > 0 && JsNumber.ParseInt(JsString.OrElse(rawDays, "0")) == JsNumber.Finite(r.value)
  {
    var n := JsNumber.ParseInt(JsString.OrElse(rawDays, "0"));
    if n.Finite? && n.value > 0 then Some(n.value) else None
  }

  /** `${firstName} ${lastName}`.trim(): the name the e-mails address. */
  function MailName(u: UserRow): string {
    JsString.Trim(u.firstName + " " + u.lastName)
  }

  /** The in-app message announcing a ban; it quotes the day count as typed. */
  function BanMessage(kind: BanKind, rawDays: string, rawReason: string): string {
    var reason := JsString.OrElse(rawReason, NoReasonText);
    if kind == Permanent then PermanentBanText + reason
    else TemporaryBanText + rawDays + DaysReasonText + reason
  }

  /** The ban-status write: banned, with the trimmed reason (absent when blank) and the expiry. */
  function BanWrite(u: UserRow, rawReason: string, until: Option<int>): (w: Write)
    ensures w.UpdateBanStatus? && w.userId == u.id && w.banned && w.bannedUntil == until
    ensures w.banReason.None? <==> JsString.Trim(rawReason) == ""
    ensures w.banReason.Some? ==> w.banReason.value == JsString.Trim(rawReason)
  {
    UpdateBanStatus(u.id, true, JsString.NonEmpty(JsString.Trim(rawReason)), until)
  }

  /** The error a thrown primary write leaves: its message, or the fallback when that is empty. */
  function ThrownMessage(message: string, fallback: string): (m: string)
    ensures |message| > 0 ==> m == message
    ensures |message| == 0 ==> m == fallback
  {
    JsString.OrElse(message, fallback)
  }

  /** A time value a `Date` can hold. */
  predicate InTimeRange(t: int) {
    -MaxTimeValue <= t <= MaxTimeValue
  }

  /** The outcome of checking the dialog's expiry: refused with a message, or the expiry to write. */
  datatype Expiry = Refused(message: string) | Expires(until: Option<int>)

  /**
   The expiry of a ban: none for a permanent one; for a temporary one, the
   validated day count after now, refused when that count is invalid or the
   resulting date is out of range.
   */
  function BanExpiry(kind: BanKind, rawDays: string, now: int): (e: Expiry)
    ensures e == Refused(InvalidDaysMessage) <==> kind == Temporary && BanDays(rawDays).None?
    ensures e == Refused(InvalidTimeMessage) <==>
      kind == Temporary && BanDays(rawDays).Some? && !InTimeRange(now + BanDays(rawDays).value * DayMillis)
    ensures e.Refused? ==> e.message == InvalidDaysMessage || e.message == InvalidTimeMessage
    ensures e.Expires? ==> (e.until.None? <==> kind == Permanent)
    ensures e.Expires? && e.until.Some? ==>
      BanDays(rawDays).Some? && e.until.value == now + BanDays(rawDays).value * DayMillis && InTimeRange(e.until.value)
  {
    if kind == Permanent then Expires(None)
    else
      match BanDays(rawDays)
      case None =>
        assert kind == Temporary;
        assert BanDays(rawDays).None?;
        Refused(InvalidDaysMessage)
      case Some(days) =>
        var until := now + days * DayMillis;
        if InTimeRange(until) then Expires(Some(until))
        else
          assert kind == Temporary && BanDays(rawDays) == Some(days);
          assert |InvalidDaysMessage| != |InvalidTimeMessage|;
          Refused(InvalidTimeMessage)
  }

  function BanEmail(u: UserRow, kind: BanKind, rawReason: string, until: Option<int>): Write {
    SendBanEmail(u.email, MailName(u), JsString.OrElse(rawReason, NoReasonText), until, kind == Permanent)
  }

  /**
   The shape both dialogs share: the primary write comes first; if it throws,
   nothing else is attempted and the dialog shows the thrown message or the
   fallback; otherwise every side effect is attempted and the dialog closes.
   */
  function Guarded(primary: Write, outcome: PrimaryOutcome, effects: seq<Attempt>, fallback: string): (r: DialogResult)
    requires !BestEffort(primary)
    requires forall i :: 0 <= i < |effects| ==> BestEffort(effects[i].write)
    ensures |r.log| >= 1 && r.log[0] == Attempt(primary, outcome.Committed?)
    ensures HaltsOnFatal(r.log)
    ensures r.error.Some? <==> HasFatal(r.log)
    ensures forall i :: 1 <= i < |r.log| ==> BestEffort(r.log[i].write)
    ensures r.closed <==> outcome.Committed?
    ensures r.closed ==> r.error.None? && r.log[1..] == effects
    ensures !r.closed ==> |r.log| == 1 && r.error == Some(ThrownMessage(outcome.message, fallback))
  {
    if outcome.Threw? then
      var log := [Attempt(primary, false)];
      assert Fatal(log[0]);
      DialogResult(log, Some(ThrownMessage(outcome.message, fallback)), false)
    else
      var log := [Attempt(primary, true)] + effects;
      assert forall i :: 1 <= i < |log| ==> log[i] == effects[i - 1];
      assert !Fatal(log[0]);
      DialogResult(log, None, true)
  }

  /**
   `handleSubmitBan` on the dialog's target: validate the day count, compute
   the expiry, write the ban, then notify and e-mail.
   */
  function Ban(u: UserRow, kind: BanKind, rawDays: string, rawReason: string, now: int, o: BanOutcomes): (r: DialogResult)
    ensures BanExpiry(kind, rawDays, now).Refused? ==>
      r == DialogResult([], Some(BanExpiry(kind, rawDays, now).message), false)
    ensures BanExpiry(kind, rawDays, now).Expires? ==>
      && |r.log| > 0
      && r.log[0] == Attempt(BanWrite(u, rawReason, BanExpiry(kind, rawDays, now).until), o.primary.Committed?)
      && (r.closed <==> o.primary.Committed?)
    ensures HaltsOnFatal(r.log)
    ensures forall i :: 1 <= i < |r.log| ==> BestEffort(r.log[i].write)
    ensures o.primary.Threw? && |r.log| > 0 ==>
      |r.log| == 1 && r.error == Some(ThrownMessage(o.primary.message, BanFailedMessage)) && !r.closed
    ensures r.closed ==> (r.error.None? && r.log[1..] ==
      [Attempt(InsertNotification(u.id, BanMessage(kind, rawDays, rawReason)), o.notifyOk),
       Attempt(BanEmail(u, kind, rawReason, r.log[0].write.bannedUntil), o.emailOk)])
  {
    match BanExpiry(kind, rawDays, now)
    case Refused(message) => DialogResult([], Some(message), false)
    case Expires(until) =>
      Guarded(BanWrite(u, rawReason, until), o.primary, BanEffects(u, kind, rawDays, rawReason, until, o), BanFailedMessage)
  }

  /** After the ban is written: notify the user in the app, then e-mail them. */
  function BanEffects(u: UserRow, kind: BanKind, rawDays: string, rawReason: string, until: Option<int>,
                      o: BanOutcomes): (r: seq<Attempt>)
    ensures forall i :: 0 <= i < |r| ==> BestEffort(r[i].write)
  {
    [Attempt(InsertNotification(u.id, BanMessage(kind, rawDays, rawReason)), o.notifyOk),
     Attempt(BanEmail(u, kind, rawReason, until), o.emailOk)]
  }

  /** `handleSubmitBan`: with no target the dialog does nothing. */
  function SubmitBan(target: Option<UserRow>, kind: BanKind, rawDays: string, rawReason: string, now: int,
                     o: BanOutcomes): (r: Option<DialogResult>)
    ensures target.None? <==> r.None?
    ensures target.Some? ==> r.value == Ban(target.value, kind, rawDays, rawReason, now, o)
  {
    if target.None? then None else Some(Ban(target.value, kind, rawDays, rawReason, now, o))
  }

  /** The in-app message announcing that a ban was lifted. */
  function UnbanMessage(rawReason: string): string {
    UnbanText + JsString.OrElse(rawReason, UnbanMessageFallback)
  }

  function UnbanEmailReason(rawReason: string): string {
    JsString.OrElse(rawReason, UnbanEmailFallback)
  }

  /** The administrators' notice; unlike the e-mail it does not trim the name. */
  function UnbanNotice(u: UserRow): string {
    "User " + u.firstName + " " + u.lastName + UnbannedText
  }

  /** `handleUnban` on the dialog's target: lift the ban, then notify the user, e-mail them and notify the admins. */
  function Unban(u: UserRow, rawReason: string, o: UnbanOutcomes): (r: DialogResult)
    ensures |r.log| >= 1 && r.log[0] == Attempt(UpdateBanStatus(u.id, false, None, None), o.primary.Committed?)
    ensures HaltsOnFatal(r.log)
    ensures forall i :: 1 <= i < |r.log| ==> BestEffort(r.log[i].write)
    ensures o.primary.Threw? ==>
      |r.log| == 1 && r.error == Some(ThrownMessage(o.primary.message, UnbanFailedMessage)) && !r.closed
    ensures r.closed <==> o.primary.Committed?
    ensures r.closed ==> (r.error.None? && r.log[1..] ==
      [Attempt(InsertNotification(u.id, UnbanMessage(rawReason)), o.notifyOk),
       Attempt(SendUnbanEmail(u.email, MailName(u), UnbanEmailReason(rawReason)), o.emailOk),
       Attempt(InsertAdminNotice(UnbannedKind, UnbanNotice(u)), o.noticeOk)])
  {
    Guarded(UpdateBanStatus(u.id, false, None, None), o.primary, UnbanEffects(u, rawReason, o), UnbanFailedMessage)
  }

  /** After the ban is lifted: notify the user in the app, e-mail them, notify the administrators. */
  function UnbanEffects(u: UserRow, rawReason: string, o: UnbanOutcomes): (r: seq<Attempt>)
    ensures forall i :: 0 <= i < |r| ==> BestEffort(r[i].write)
  {
    [Attempt(InsertNotification(u.id, UnbanMessage(rawReason)), o.notifyOk),
     Attempt(SendUnbanEmail(u.email, MailName(u), UnbanEmailReason(rawReason)), o.emailOk),
     Attempt(InsertAdminNotice(UnbannedKind, UnbanNotice(u)), o.noticeOk)]
  }

  /** `handleUnban`: with no target the dialog does nothing. */
  function SubmitUnban(target: Option<UserRow>, rawReason: string, o: UnbanOutcomes): (r: Option<DialogResult>)
    ensures target.None? <==> r.None?
    ensures target.Some? ==> r.value == Unban(target.value, rawReason, o)
  {
    if target.None? then None else Some(Unban(target.value, rawReason, o))
  }

  /** Side effects that attempt the same writes leave the same writes, error and closing, whatever their outcomes. */
  lemma GuardedSameWrites(primary: Write, outcome: PrimaryOutcome, effects: seq<Attempt>, effects': seq<Attempt>, fallback: string)
    requires !BestEffort(primary)
    requires forall i :: 0 <= i < |effects| ==> BestEffort(effects[i].write)
    requires SameWrites(effects, effects')
    ensures forall i :: 0 <= i < |effects'| ==> BestEffort(effects'[i].write)
    ensures var r := Guarded(primary, outcome, effects, fallback);
            var r' := Guarded(primary, outcome, effects', fallback);
            SameWrites(r.log, r'.log) && r.error == r'.error && r.closed == r'.closed
  {
    assert forall i :: 0 <= i < |effects'| ==> effects'[i].write == effects[i].write;
    var r := Guarded(primary, outcome, effects, fallback);
    var r' := Guarded(primary, outcome, effects', fallback);
    if outcome.Committed? {
      forall i | 1 <= i < |r.log| ensures r.log[i].write == r'.log[i].write {
        assert r.log[i] == effects[i - 1] && r'.log[i] == effects'[i - 1];
      }
    }
  }

  /**
   The side effects of a ban are independent and best effort: whether the
   notification or the e-mail goes through changes neither the writes
   attempted, nor the error, nor whether the dialog closes.
   */
  lemma BanSideEffectsIndependent(u: UserRow, kind: BanKind, rawDays: string, rawReason: string, now: int,
                                  o: BanOutcomes, o': BanOutcomes)
    requires o.primary == o'.primary
    ensures var r := Ban(u, kind, rawDays, rawReason, now, o);
            var r' := Ban(u, kind, rawDays, rawReason, now, o');
            SameWrites(r.log, r'.log) && r.error == r'.error && r.closed == r'.closed
  {
    var e := BanExpiry(kind, rawDays, now);
    if e.Expires? {
      var effects := BanEffects(u, kind, rawDays, rawReason, e.until, o);
      var effects' := BanEffects(u, kind, rawDays, rawReason, e.until, o');
      assert Ban(u, kind, rawDays, rawReason, now, o) == Guarded(BanWrite(u, rawReason, e.until), o.primary, effects, BanFailedMessage);
      assert Ban(u, kind, rawDays, rawReason, now, o') == Guarded(BanWrite(u, rawReason, e.until), o.primary, effects', BanFailedMessage);
      GuardedSameWrites(BanWrite(u, rawReason, e.until), o.primary, effects, effects', BanFailedMessage);
    }
  }

  /** The same independence for the three side effects of an unban. */
  lemma UnbanSideEffectsIndependent(u: UserRow, rawReason: string, o: UnbanOutcomes, o': UnbanOutcomes)
    requires o.primary == o'.primary
    ensures var r := Unban(u, rawReason, o);
            var r' := Unban(u, rawReason, o');
            SameWrites(r.log, r'.log) && r.error == r'.error && r.closed == r'.closed
  {
    GuardedSameWrites(UpdateBanStatus(u.id, false, None, None), o.primary,
                      UnbanEffects(u, rawReason, o), UnbanEffects(u, rawReason, o'), UnbanFailedMessage);
  }

  /**
   A temporary ban for a day count typed as a numeral `d > 0`, possibly
   followed by text that does not start with a digit, expires exactly `d`
   days after now, provided `now` is itself a valid time and the expiry stays
   in range.
   */
  lemma TemporaryBanExpiry(u: UserRow, d: nat, rest: string, rawReason: string, now: int, o: BanOutcomes)
    requires d > 0
    requires |rest| == 0 || !JsNumber.IsDigit(rest[0])
    requires -MaxTimeValue <= now <= MaxTimeValue
    requires -MaxTimeValue <= now + d * DayMillis <= MaxTimeValue
    ensures var r := Ban(u, Temporary, JsNumber.Decimal(d) + rest, rawReason, now, o);
            |r.log| > 0 && r.log[0].write.bannedUntil == Some(now + d * DayMillis)
            && (o.primary.Committed? ==> r.closed)
  {
    var raw := JsNumber.Decimal(d) + rest;
    assert d < JsNumber.OverflowThreshold;
    JsNumber.ParseIntOfDecimal(d, rest);
    assert JsString.OrElse(raw, "0") == raw;
    assert BanDays(raw) == Some(d);
    assert BanExpiry(Temporary, raw, now) == Expires(Some(now + d * DayMillis));
  }

  /** The dialog's default of seven days bans for exactly a week. */
  lemma DefaultSevenDays(u: UserRow, rawDays: string, rawReason: string, now: int, o: BanOutcomes)
    requires rawDays == "7"
    requires -MaxTimeValue <= now <= MaxTimeValue - 7 * DayMillis
    ensures var r := Ban(u, Temporary, rawDays, rawReason, now, o);
            |r.log| > 0 && r.log[0].write.bannedUntil == Some(now + 604_800_000)
  {
    assert JsNumber.Decimal(7) + "" == rawDays;
    TemporaryBanExpiry(u, 7, "", rawReason, now, o);
  }

  /**
   The notification quotes the day count as typed while the expiry uses what
   `parseInt` reads from it: "1.5" bans for one day and announces 1.5 days.
   */
  lemma TypedDaysQuotedVerbatim(u: UserRow, d: nat, rest: string, rawReason: string, now: int, o: BanOutcomes)
    requires d > 0
    requires |rest| == 0 || !JsNumber.IsDigit(rest[0])
    requires -MaxTimeValue <= now <= MaxTimeValue
    requires -MaxTimeValue <= now + d * DayMillis <= MaxTimeValue
    requires o.primary.Committed?
    ensures var rawDays := JsNumber.Decimal(d) + rest;
            var r := Ban(u, Temporary, rawDays, rawReason, now, o);
            && r.closed
            && r.log[0].write.bannedUntil == Some(now + d * DayMillis)
            && r.log[1].write.message == TemporaryBanText + rawDays + DaysReasonText + JsString.OrElse(rawReason, NoReasonText)
  {
    TemporaryBanExpiry(u, d, rest, rawReason, now, o);
  }

  /** A blank day field counts as `"0"` and is refused before any write. */
  lemma EmptyDaysRefused(u: UserRow, rawReason: string, now: int, o: BanOutcomes)
    ensures Ban(u, Temporary, "", rawReason, now, o) == DialogResult([], Some(InvalidDaysMessage), false)
  {
    JsNumber.ParseIntOfDecimal(0, "");
    assert JsNumber.Decimal(0) + "" == JsString.OrElse("", "0");
    assert BanDays("").None?;
    assert BanExpiry(Temporary, "", now) == Refused(InvalidDaysMessage);
  }

  /** A day count that reads as zero is refused before any write. */
  lemma ZeroDaysRefused(u: UserRow, rest: string, rawReason: string, now: int, o: BanOutcomes)
    requires |rest| == 0 || !JsNumber.IsDigit(rest[0])
    ensures var rawDays := JsNumber.Decimal(0) + rest;
            Ban(u, Temporary, rawDays, rawReason, now, o) == DialogResult([], Some(InvalidDaysMessage), false)
  {
    var rawDays := JsNumber.Decimal(0) + rest;
    JsNumber.ParseIntOfDecimal(0, rest);
    assert JsString.OrElse(rawDays, "0") == rawDays;
    assert BanDays(rawDays).None?;
    assert BanExpiry(Temporary, rawDays, now) == Refused(InvalidDaysMessage);
  }

  /** A day count typed with a leading minus sign is refused before any write. */
  lemma NegativeDaysRefused(u: UserRow, rawDays: string, rawReason: string, now: int, o: BanOutcomes)
    requires |rawDays| > 0 && rawDays[0] == '-'
    ensures Ban(u, Temporary, rawDays, rawReason, now, o) == DialogResult([], Some(InvalidDaysMessage), false)
  {
    JsNumber.MinusNeverPositive(rawDays);
    assert JsString.OrElse(rawDays, "0") == rawDays;
    assert BanDays(rawDays).None?;
    assert BanExpiry(Temporary, rawDays, now) == Refused(InvalidDaysMessage);
  }

  /** A day count without any digit reads as NaN and is refused before any write. */
  lemma DigitlessDaysRefused(u: UserRow, rawDays: string, rawReason: string, now: int, o: BanOutcomes)
    requires |rawDays| > 0
    requires forall i :: 0 <= i < |rawDays| ==> !JsNumber.IsDigit(rawDays[i])
    ensures Ban(u, Temporary, rawDays, rawReason, now, o) == DialogResult([], Some(InvalidDaysMessage), false)
  {
    assert JsString.OrElse(rawDays, "0") == rawDays;
    assert BanDays(rawDays).None?;
    assert BanExpiry(Temporary, rawDays, now) == Refused(InvalidDaysMessage);
  }

  /** Whether the ban or unban confirm button is enabled: it needs a non-blank reason. */
  predicate ReasonSubmitEnabled(submitting: bool, rawReason: string) {
    !submitting && JsString.Trim(rawReason) != ""
  }

  /**
   A ban confirmed from an enabled dialog stores its reason, trimmed and
   non-empty, and quotes the reason as typed in the notification and the
   e-mail, never their fallback.
   */
  lemma EnabledBanRecordsReason(u: UserRow, kind: BanKind, rawDays: string, rawReason: string, now: int, o: BanOutcomes)
    requires ReasonSubmitEnabled(false, rawReason)
    ensures var r := Ban(u, kind, rawDays, rawReason, now, o);
            |r.log| > 0 ==> r.log[0].write.banReason == Some(JsString.Trim(rawReason))
    ensures var r := Ban(u, kind, rawDays, rawReason, now, o);
            r.closed ==>
              && r.log[1].write.message == (if kind == Permanent then PermanentBanText + rawReason
                                            else TemporaryBanText + rawDays + DaysReasonText + rawReason)
              && r.log[2].write.reason == rawReason
  {
    JsString.TrimEmptyIffBlank(rawReason);
    assert |rawReason| > 0;
  }

  /**
   An unban confirmed from an enabled dialog passes the reason as typed to
   the notification and the e-mail, never their fallbacks.
   */
  lemma EnabledUnbanQuotesReason(u: UserRow, rawReason: string, o: UnbanOutcomes)
    requires ReasonSubmitEnabled(false, rawReason)
    ensures var r := Unban(u, rawReason, o);
            r.closed ==> && r.log[1].write.message == UnbanText + rawReason
                         && r.log[2].write.reason == rawReason
  {
    JsString.TrimEmptyIffBlank(rawReason);
    assert |rawReason| > 0;
  }
}
