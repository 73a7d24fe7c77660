/** The records of the check tracker: checks, their audit history,
    notifications and the signed-in user (types.ts). */
module Types {
  import opened Wrappers

  /** The five check statuses, in declaration order. */
  datatype CheckStatus = Pending | NearDue | Cleared | Bounced | Voided

  /** The string each enum member stands for; this is what the UI shows,
      what the status selector carries and what is stored. */
  function StatusLabel(s: CheckStatus): string
  {
    match s
    case Pending => "در انتظار"
    case NearDue => "نزدیک به سررسید"
    case Cleared => "وصول شده"
    case Bounced => "برگشتی"
    case Voided => "باطل شده"
  }

  /** `Object.values(CheckStatus)`: the members in declaration order. */
  const AllStatuses: seq<CheckStatus> := [Pending, NearDue, Cleared, Bounced, Voided]

  /** Reading a stored or selected string back as a status (`value as CheckStatus`). */
  function ParseStatus(text: string): (r: Option<CheckStatus>)
    ensures r.Some? ==> StatusLabel(r.value) == text
    ensures r.None? <==> forall s: CheckStatus :: StatusLabel(s) != text
  {
    if text == StatusLabel(Pending) then Some(Pending)
    else if text == StatusLabel(NearDue) then Some(NearDue)
    else if text == StatusLabel(Cleared) then Some(Cleared)
    else if text == StatusLabel(Bounced) then Some(Bounced)
    else if text == StatusLabel(Voided) then Some(Voided)
    else None
  }

  /** The enum is closed: exactly five members, each listed once, with
      pairwise distinct labels, so a label identifies its status. */
  lemma StatusEnumClosed()
    ensures |AllStatuses| == 5
    ensures forall s: CheckStatus :: s in AllStatuses
    ensures forall i, j :: 0 <= i < j < |AllStatuses| ==> AllStatuses[i] != AllStatuses[j]
    ensures forall s, t: CheckStatus :: StatusLabel(s) == StatusLabel(t) ==> s == t
  {
    forall s: CheckStatus ensures s in AllStatuses {
      match s
      case Pending => assert AllStatuses[0] == s;
      case NearDue => assert AllStatuses[1] == s;
      case Cleared => assert AllStatuses[2] == s;
      case Bounced => assert AllStatuses[3] == s;
      case Voided => assert AllStatuses[4] == s;
    }
    forall s, t: CheckStatus ensures StatusLabel(s) == StatusLabel(t) ==> s == t {
      StatusLabelInjective(s, t);
    }
  }

  /** Equal labels mean equal statuses. */
  lemma StatusLabelInjective(s: CheckStatus, t: CheckStatus)
    ensures StatusLabel(s) == StatusLabel(t) ==> s == t
  {
    if StatusLabel(s) == StatusLabel(t) {
      assert ParseStatus(StatusLabel(s)) == Some(s);
    }
  }

  /** The marker stored as `fromStatus` of the first history entry. */
  const InitialRegistration: string := "ثبت اولیه"

  /** `CheckStatus | 'ثبت اولیه'`. */
  datatype FromStatus = Initial | From(status: CheckStatus)

  function FromLabel(f: FromStatus): (r: string)
    ensures f.Initial? <==> r == InitialRegistration
  {
    match f
    case Initial => InitialRegistration
    case From(s) => StatusLabel(s)
  }

  /** One audit record; newest entries are kept first. */
  datatype HistoryEntry = HistoryEntry(
    id: string,
    fromStatus: FromStatus,
    toStatus: CheckStatus,
    timestamp: string,
    userId: string)

  /** A registered check. `amount` is a JavaScript number in the source; it
      is an integer here. */
  datatype Check = Check(
    id: string,
    checkNumber: string,
    amount: int,
    bankName: string,
    issuerName: string,
    receiverName: string,
    issueDate: string,
    dueDate: string,
    status: CheckStatus,
    createdAt: string,
    history: seq<HistoryEntry>)

  /** The registry invariant: a check always has a history, and its current
      status is the target of its newest entry. */
  predicate WellFormed(c: Check)
  {
    |c.history| >= 1 && c.status == c.history[0].toStatus
  }

  predicate AllWellFormed(checks: seq<Check>)
  {
    forall i :: 0 <= i < |checks| ==> WellFormed(checks[i])
  }

  datatype AuditLog = AuditLog(id: string, timestamp: string, userId: string, action: string, details: string)

  datatype TelegramConfig = TelegramConfig(
    botToken: string,
    chatId: string,
    autoReminders: bool,
    dailyReports: bool,
    voiceAlerts: bool)

  datatype Role = Admin | Operator

  datatype User = User(
    id: string,
    username: string,
    role: Role,
    isTwoFactorEnabled: bool,
    telegram: Option<TelegramConfig>)

  datatype NotificationType = Critical | Warning | Info

  datatype Notification = Notification(
    id: string,
    title: string,
    message: string,
    kind: NotificationType,
    timestamp: string,
    isRead: bool,
    link: Option<string>)

  predicate IsDigitString(s: string)
  {
    forall i :: 0 <= i < |s| ==> '0' <= s[i] <= '9'
  }

  /** The number a string of decimal digits denotes, read from the left. */
  function DecimalValue(s: string): nat
    requires IsDigitString(s)
  {
    if s == [] then 0 else 10 * DecimalValue(s[..|s| - 1]) + (s[|s| - 1] as int - '0' as int)
  }

  /** `Number.prototype.toString()` for an integer: the shortest decimal
      digits of its magnitude, with a leading '-' for negatives. */
  function NumberToString(n: int): (r: string)
    ensures r != []
    ensures n < 0 <==> r[0] == '-'
    ensures n >= 0 ==> IsDigitString(r) && DecimalValue(r) == n
    ensures n < 0 ==> IsDigitString(r[1..]) && DecimalValue(r[1..]) == -n
    ensures n != 0 ==> r[if n < 0 then 1 else 0] != '0'
    ensures n == 0 ==> r == "0"
  {
    if n < 0 then
      var d := DigitsOf(-n);
      assert ("-" + d)[1..] == d;
      "-" + d
    else DigitsOf(n)
  }

  /** The decimal digits of `n`, without leading zeros. */
  function DigitsOf(n: nat): (r: string)
    ensures r != [] && IsDigitString(r)
    ensures DecimalValue(r) == n
    ensures r[0] == '0' <==> n == 0
    ensures n == 0 ==> r == "0"
  {
    if n < 10 then [('0' as int + n) as char]
    else
      var front := DigitsOf(n / 10);
      var r := front + [('0' as int + n % 10) as char];
      assert r[..|r| - 1] == front;
      r
  }

  /** Different numbers are shown differently. */
  lemma NumberToStringInjective(a: int, b: int)
    requires NumberToString(a) == NumberToString(b)
    ensures a == b
  {
  }
}
