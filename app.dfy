/** The check registry held by the root component of App.tsx: the list of
    checks with its two updates (a status change and a registration), the
    Telegram dispatch guard and the unread-notification badge. Clocks and
    random ids are passed in. */
module App {
  import opened Wrappers
  import opened Types

  /** The name recorded when nobody is signed in, per operation. */
  const StatusChangeFallback: string := "کاربر"
  const RegistrationFallback: string := "مدیر"
  const MessageFallback: string := "مدیر سیستم"

  /** `user?.username || fallback`: an empty username counts as missing. */
  function ActorName(user: Option<User>, fallback: string): (r: string)
    ensures user.Some? && user.value.username != [] ==> r == user.value.username
    ensures user.None? || user.value.username == [] ==> r == fallback
  {
    if user.Some? && user.value.username != [] then user.value.username else fallback
  }

  /** The id (`Date.now().toString()`) and local time text of a new history entry. */
  datatype Stamp = Stamp(entryId: string, timestamp: string)

  /** The check `handleUpdateStatus` puts in place of a matching one. */
  function WithStatus(c: Check, status: CheckStatus, stamp: Stamp, actor: string): Check
  {
    c.(status := status,
       history := [HistoryEntry(stamp.entryId, From(c.status), status, stamp.timestamp, actor)] + c.history)
  }

  /** `handleUpdateStatus(id, status)`: every check whose id matches (ids are
      not forced to be unique) gets the new status and a new newest history
      entry recording the move; every other check is left as it was. */
  function ApplyStatusChange(checks: seq<Check>, id: string, status: CheckStatus, stamp: Stamp, actor: string): (r: seq<Check>)
    ensures |r| == |checks|
    ensures forall i :: 0 <= i < |checks| && checks[i].id != id ==> r[i] == checks[i]
    ensures forall i :: 0 <= i < |checks| && checks[i].id == id ==>
      && r[i].status == status
      && r[i].history == [HistoryEntry(stamp.entryId, From(checks[i].status), status, stamp.timestamp, actor)] + checks[i].history
      && r[i].(status := checks[i].status, history := checks[i].history) == checks[i]
  {
    seq(|checks|, i requires 0 <= i < |checks| =>
      if checks[i].id == id then WithStatus(checks[i], status, stamp, actor) else checks[i])
  }

  /** A status change keeps the registry invariant, makes every target
      well-formed whatever it was before, and lengthens its history by one. */
  lemma StatusChangeKeepsWellFormed(checks: seq<Check>, id: string, status: CheckStatus, stamp: Stamp, actor: string)
    ensures var r := ApplyStatusChange(checks, id, status, stamp, actor);
      && (AllWellFormed(checks) ==> AllWellFormed(r))
      && (forall i :: 0 <= i < |r| && r[i].id == id ==>
            WellFormed(r[i]) && |r[i].history| == |checks[i].history| + 1)
  {
    var r := ApplyStatusChange(checks, id, status, stamp, actor);
    forall i | 0 <= i < |r| && r[i].id == id
      ensures WellFormed(r[i]) && |r[i].history| == |checks[i].history| + 1
    {
      assert checks[i].id == id;
      assert r[i].history[0].toStatus == status;
    }
  }

  /** Changing the status of an id no check has gives back the same list. */
  lemma UnknownIdChangesNothing(checks: seq<Check>, id: string, status: CheckStatus, stamp: Stamp, actor: string)
    requires forall i :: 0 <= i < |checks| ==> checks[i].id != id
    ensures ApplyStatusChange(checks, id, status, stamp, actor) == checks
  {
    var r := ApplyStatusChange(checks, id, status, stamp, actor);
    assert forall i :: 0 <= i < |r| ==> r[i] == checks[i];
  }

  /** `Omit<Check, 'id' | 'createdAt' | 'history'>`: what the form supplies. */
  datatype CheckDraft = CheckDraft(
    checkNumber: string,
    amount: int,
    bankName: string,
    issuerName: string,
    receiverName: string,
    issueDate: string,
    dueDate: string,
    status: CheckStatus)

  /** The generated parts of a registration: the random check id, the ISO
      creation time, and the stamp of the initial history entry. */
  datatype Creation = Creation(checkId: string, createdAt: string, stamp: Stamp)

  function DraftOf(c: Check): CheckDraft
  {
    CheckDraft(c.checkNumber, c.amount, c.bankName, c.issuerName, c.receiverName, c.issueDate, c.dueDate, c.status)
  }

  /** The check `handleAddCheck` builds: the draft's fields, the generated
      id and time, and exactly one history entry, from the initial
      registration marker to the draft's status. */
  function NewCheck(draft: CheckDraft, creation: Creation, actor: string): (c: Check)
    ensures WellFormed(c) && |c.history| == 1
    ensures c.history[0] == HistoryEntry(creation.stamp.entryId, Initial, draft.status, creation.stamp.timestamp, actor)
    ensures DraftOf(c) == draft && c.id == creation.checkId && c.createdAt == creation.createdAt
  {
    Check(creation.checkId, draft.checkNumber, draft.amount, draft.bankName, draft.issuerName,
      draft.receiverName, draft.issueDate, draft.dueDate, draft.status, creation.createdAt,
      [HistoryEntry(creation.stamp.entryId, Initial, draft.status, creation.stamp.timestamp, actor)])
  }

  /** `setChecks(prev => [...prev, check])`: the new check goes last and the
      existing ones stay as they were, in order. */
  function Register(checks: seq<Check>, draft: CheckDraft, creation: Creation, actor: string): (r: seq<Check>)
    ensures |r| == |checks| + 1 && r[..|checks|] == checks
    ensures r[|checks|] == NewCheck(draft, creation, actor)
    ensures AllWellFormed(checks) ==> AllWellFormed(r)
  {
    checks + [NewCheck(draft, creation, actor)]
  }

  /** A message handed to the Telegram bot API. */
  datatype Dispatch = Dispatch(botToken: string, chatId: string, message: string)

  /** `dispatchTelegram(message)`: sent only when the signed-in user has a
      Telegram configuration whose token and chat id are both non-empty. */
  function TelegramDispatch(user: Option<User>, message: string): (r: Option<Dispatch>)
    ensures r.Some? <==>
      user.Some? && user.value.telegram.Some?
      && user.value.telegram.value.botToken != [] && user.value.telegram.value.chatId != []
    ensures r.Some? ==>
      && r.value.botToken == user.value.telegram.value.botToken
      && r.value.chatId == user.value.telegram.value.chatId
      && r.value.message == message
  {
    if user.Some? && user.value.telegram.Some?
       && user.value.telegram.value.botToken != [] && user.value.telegram.value.chatId != []
    then Some(Dispatch(user.value.telegram.value.botToken, user.value.telegram.value.chatId, message))
    else None
  }

  /** `notifications.filter(n => !n.isRead)`. */
  function Unread(ns: seq<Notification>): (r: seq<Notification>)
    ensures |r| <= |ns|
    ensures forall n :: n in r ==> !n.isRead
    ensures forall n: Notification :: !n.isRead ==> multiset(r)[n] == multiset(ns)[n]
  {
    if ns == [] then []
    else
      assert ns == [ns[0]] + ns[1..];
      if ns[0].isRead then Unread(ns[1..]) else [ns[0]] + Unread(ns[1..])
  }

  /** The bell badge: the number of unread notifications, shown only when
      there is at least one. */
  function UnreadBadge(ns: seq<Notification>): (r: Option<nat>)
    ensures r.Some? ==> r.value == |Unread(ns)| && r.value > 0
  {
    var count := |Unread(ns)|;
    if count > 0 then Some(count) else None
  }

  /** The badge is shown exactly when some notification is unread. */
  lemma {:induction false} UnreadBadgeShown(ns: seq<Notification>)
    ensures UnreadBadge(ns).Some? <==> exists i :: 0 <= i < |ns| && !ns[i].isRead
  {
    if ns != [] {
      UnreadBadgeShown(ns[1..]);
      if !ns[0].isRead {
        assert 0 < |ns| && !ns[0].isRead;
      } else {
        assert forall i :: 1 <= i < |ns| ==> ns[i] == ns[1..][i - 1];
      }
    }
  }

  /** The two registry updates, with the actor name already chosen. */
  datatype Update =
    | ChangeStatus(id: string, status: CheckStatus, stamp: Stamp, actor: string)
    | Add(draft: CheckDraft, creation: Creation, actor: string)

  function Apply(checks: seq<Check>, u: Update): seq<Check>
  {
    match u
    case ChangeStatus(id, status, stamp, actor) => ApplyStatusChange(checks, id, status, stamp, actor)
    case Add(draft, creation, actor) => Register(checks, draft, creation, actor)
  }

  function ApplyAll(checks: seq<Check>, us: seq<Update>): seq<Check>
    decreases |us|
  {
    if us == [] then checks else ApplyAll(Apply(checks, us[0]), us[1..])
  }

  /** Any run of status changes and registrations keeps the registry
      invariant: every check has a history and its status is the target of
      its newest entry. */
  lemma {:induction false} UpdatesKeepWellFormed(checks: seq<Check>, us: seq<Update>)
    requires AllWellFormed(checks)
    ensures AllWellFormed(ApplyAll(checks, us))
    decreases |us|
  {
    if us != [] {
      match us[0] {
        case ChangeStatus(id, status, stamp, actor) =>
          StatusChangeKeepsWellFormed(checks, id, status, stamp, actor);
        case Add(_, _, _) =>
      }
      UpdatesKeepWellFormed(Apply(checks, us[0]), us[1..]);
    }
  }

  /** Registering a check under a fresh id and then changing its status
      leaves it last in the list with two history entries, newest first:
      the change, attributed to whoever made it, on top of the initial
      registration. */
  lemma RegisterThenChange(checks: seq<Check>, draft: CheckDraft, creation: Creation, registrar: string,
                           status: CheckStatus, stamp: Stamp, changer: string)
    requires forall i :: 0 <= i < |checks| ==> checks[i].id != creation.checkId
    ensures var r := ApplyStatusChange(Register(checks, draft, creation, registrar), creation.checkId, status, stamp, changer);
      && |r| == |checks| + 1 && r[..|checks|] == checks
      && r[|checks|].status == status
      && r[|checks|].history == [
           HistoryEntry(stamp.entryId, From(draft.status), status, stamp.timestamp, changer),
           HistoryEntry(creation.stamp.entryId, Initial, draft.status, creation.stamp.timestamp, registrar)]
  {
    var added := Register(checks, draft, creation, registrar);
    var r := ApplyStatusChange(added, creation.checkId, status, stamp, changer);
    assert forall i :: 0 <= i < |checks| ==> r[i] == added[i] == checks[i];
  }

  /** The state of the root component: the signed-in user, the checks, the
      notifications, and the Telegram messages sent so far. */
  class Registry {
    var user: Option<User>
    var checks: seq<Check>
    var notifications: seq<Notification>
    var outbox: seq<Dispatch>

    ghost predicate Valid()
      reads this
    {
      AllWellFormed(checks)
    }

    constructor(user: Option<User>, checks: seq<Check>, notifications: seq<Notification>)
      ensures this.user == user && this.checks == checks && this.notifications == notifications
      ensures outbox == []
    {
      this.user := user;
      this.checks := checks;
      this.notifications := notifications;
      outbox := [];
    }

    /** `handleUpdateStatus`; it sends no Telegram message. */
    method UpdateStatus(id: string, status: CheckStatus, stamp: Stamp)
      modifies this
      ensures checks == ApplyStatusChange(old(checks), id, status, stamp, ActorName(user, StatusChangeFallback))
      ensures user == old(user) && notifications == old(notifications) && outbox == old(outbox)
      ensures old(Valid()) ==> Valid()
    {
      StatusChangeKeepsWellFormed(checks, id, status, stamp, ActorName(user, StatusChangeFallback));
      checks := ApplyStatusChange(checks, id, status, stamp, ActorName(user, StatusChangeFallback));
    }

    /** `handleAddCheck`: appends the new check, then announces it through
      the Telegram guard. `format` is `formatNewCheckMessage`. */
    method AddCheck(draft: CheckDraft, creation: Creation, format: (Check, string) -> string)
      modifies this
      ensures var check := NewCheck(draft, creation, ActorName(user, RegistrationFallback));
        && checks == old(checks) + [check]
        && outbox == old(outbox) + match TelegramDispatch(user, format(check, ActorName(user, MessageFallback)))
             case None => []
             case Some(d) => [d]
      ensures user == old(user) && notifications == old(notifications)
      ensures old(Valid()) ==> Valid()
    {
      var check := NewCheck(draft, creation, ActorName(user, RegistrationFallback));
      checks := Register(checks, draft, creation, ActorName(user, RegistrationFallback));
      var sent := TelegramDispatch(user, format(check, ActorName(user, MessageFallback)));
      if sent.Some? {
        outbox := outbox + [sent.value];
      }
    }
  }
}
