/** The aggregates on the dashboard page (pages/Dashboard.tsx): the total
    amount, the per-status tally and the chart built from it, the stat-card
    texts, the five most recent checks and the status badge styles. */
module Dashboard {
  import opened Wrappers
  import opened Types

  /** `checks.reduce((sum, c) => sum + c.amount, 0)`, folded from the left. */
  function TotalAmount(checks: seq<Check>): (r: int)
    ensures checks == [] ==> r == 0
    ensures |checks| == 1 ==> r == checks[0].amount
    ensures (forall i :: 0 <= i < |checks| ==> checks[i].amount >= 0) ==> r >= 0
  {
    if checks == [] then 0 else TotalAmount(checks[..|checks| - 1]) + checks[|checks| - 1].amount
  }

  /** The total of two lists joined is the sum of their totals. */
  lemma {:induction false} TotalAmountAppend(a: seq<Check>, b: seq<Check>)
    ensures TotalAmount(a + b) == TotalAmount(a) + TotalAmount(b)
    decreases |b|
  {
    if b != [] {
      var b' := b[..|b| - 1];
      assert (a + b)[..|a + b| - 1] == a + b';
      TotalAmountAppend(a, b');
    } else {
      assert a + b == a;
    }
  }

  /** The sum of the amounts, taken from the front. */
  function SumAmounts(checks: seq<Check>): int
  {
    if checks == [] then 0 else checks[0].amount + SumAmounts(checks[1..])
  }

  /** The left fold of the page and the sum from the front agree. */
  lemma {:induction false} TotalAmountIsSum(checks: seq<Check>)
    ensures TotalAmount(checks) == SumAmounts(checks)
  {
    if checks != [] {
      assert checks == [checks[0]] + checks[1..];
      TotalAmountAppend([checks[0]], checks[1..]);
      TotalAmountIsSum(checks[1..]);
    }
  }

  /** How many checks have status `s`. */
  function Count(checks: seq<Check>, s: CheckStatus): (r: nat)
    ensures r <= |checks|
  {
    if checks == [] then 0
    else Count(checks[..|checks| - 1], s) + (if checks[|checks| - 1].status == s then 1 else 0)
  }

  /** The tally object: its entries in insertion order (the order
      `Object.entries` yields for these non-numeric keys). */
  type Tally = seq<(CheckStatus, nat)>

  function Lookup(t: Tally, s: CheckStatus): (r: Option<nat>)
    ensures r.None? <==> forall i :: 0 <= i < |t| ==> t[i].0 != s
  {
    if t == [] then None
    else if t[0].0 == s then Some(t[0].1)
    else Lookup(t[1..], s)
  }

  predicate DistinctKeys(t: Tally)
  {
    forall i, j :: 0 <= i < j < |t| ==> t[i].0 != t[j].0
  }

  /** `acc[s] = (acc[s] || 0) + 1`: an existing key is incremented in
      place, a new key is added last with count 1. */
  function Bump(t: Tally, s: CheckStatus): (r: Tally)
    ensures r != [] && (|r| == |t| || |r| == |t| + 1)
  {
    if t == [] then [(s, 1)]
    else if t[0].0 == s then [(s, t[0].1 + 1)] + t[1..]
    else [t[0]] + Bump(t[1..], s)
  }

  /** `statusCounts`, the specification: the reduce of `Bump` over the checks. */
  function Tallied(checks: seq<Check>): (r: Tally)
    ensures |r| <= |checks|
    ensures r == [] <==> checks == []
  {
    if checks == [] then [] else Bump(Tallied(checks[..|checks| - 1]), checks[|checks| - 1].status)
  }

  /** `statusCounts`: the reduce, which updates its accumulator in place. */
  method StatusCounts(checks: seq<Check>) returns (acc: Tally)
    ensures acc == Tallied(checks)
  {
    acc := [];
    for i := 0 to |checks|
      invariant acc == Tallied(checks[..i])
    {
      assert checks[..i + 1][..i] == checks[..i];
      acc := Bump(acc, checks[i].status);
    }
    assert checks[..|checks|] == checks;
  }

  /** `Lookup` on a non-empty tally looks at the first entry first. */
  lemma LookupFirst(t: Tally, q: CheckStatus)
    requires t != []
    ensures Lookup(t, q) == if t[0].0 == q then Some(t[0].1) else Lookup(t[1..], q)
  {
  }

  /** The count `Bump` leaves for `q` when `q` was not counted at the front. */
  function Bumped(t: Tally, s: CheckStatus, q: CheckStatus): Option<nat>
  {
    if q != s then Lookup(t, q) else match Lookup(t, s)
      case None => Some(1)
      case Some(n) => Some(n + 1)
  }

  /** The cases of `BumpLookup` where `Bump` stops at the front. */
  lemma BumpLookupFront(t: Tally, s: CheckStatus, q: CheckStatus)
    requires t == [] || t[0].0 == s
    ensures Lookup(Bump(t, s), q) == Bumped(t, s, q)
  {
    var r := Bump(t, s);
    LookupFirst(r, q);
    if t != [] {
      assert r[1..] == t[1..];
      LookupFirst(t, q);
    }
  }

  /** Past a front entry for neither `s` nor `q`, `Bumped` is unchanged. */
  lemma BumpedTail(t: Tally, s: CheckStatus, q: CheckStatus)
    requires t != [] && t[0].0 != s && t[0].0 != q
    ensures Bumped(t, s, q) == Bumped(t[1..], s, q)
  {
    LookupFirst(t, q);
    LookupFirst(t, s);
  }

  /** After counting `s`, the count of `s` went up by one (from 1 when it
      was absent) and every other count is unchanged. */
  lemma {:induction false} BumpLookup(t: Tally, s: CheckStatus, q: CheckStatus)
    ensures Lookup(Bump(t, s), q) == Bumped(t, s, q)
    decreases |t|
  {
    if t == [] || t[0].0 == s {
      BumpLookupFront(t, s, q);
    } else {
      var r := Bump(t, s);
      assert r[0] == t[0] && r[1..] == Bump(t[1..], s);
      LookupFirst(r, q);
      if t[0].0 == q {
        LookupFirst(t, q);
      } else {
        BumpLookup(t[1..], s, q);
        BumpedTail(t, s, q);
      }
    }
  }

  /** The statuses a tally has entries for. */
  function Keys(t: Tally): set<CheckStatus>
  {
    set i | 0 <= i < |t| :: t[i].0
  }

  /** An entry in front of a tally with distinct keys keeps them distinct
      exactly when its key is new. */
  lemma DistinctCons(p: (CheckStatus, nat), t: Tally)
    requires DistinctKeys(t) && p.0 !in Keys(t)
    ensures DistinctKeys([p] + t)
  {
    var r := [p] + t;
    forall i, j | 0 <= i < j < |r| ensures r[i].0 != r[j].0 {
      assert r[j] == t[j - 1];
      if i > 0 {
        assert r[i] == t[i - 1];
      }
    }
  }

  lemma KeysCons(p: (CheckStatus, nat), t: Tally)
    ensures Keys([p] + t) == {p.0} + Keys(t)
  {
    var r := [p] + t;
    assert r[0].0 == p.0;
    forall k | k in Keys(r) ensures k in {p.0} + Keys(t) {
      var i :| 0 <= i < |r| && r[i].0 == k;
      if i > 0 {
        assert t[i - 1].0 == k;
      }
    }
    forall k | k in Keys(t) ensures k in Keys(r) {
      var i :| 0 <= i < |t| && t[i].0 == k;
      assert r[i + 1].0 == k;
    }
  }

  /** Counting a status adds its key if it was missing and keeps the keys
      distinct. */
  lemma {:induction false} BumpDistinct(t: Tally, s: CheckStatus)
    requires DistinctKeys(t)
    ensures DistinctKeys(Bump(t, s))
    ensures Keys(Bump(t, s)) == Keys(t) + {s}
    decreases |t|
  {
    if t == [] {
      KeysCons((s, 1), []);
    } else {
      var rest := t[1..];
      assert t == [t[0]] + rest;
      KeysCons(t[0], rest);
      assert DistinctKeys(rest);
      if t[0].0 == s {
        KeysCons((s, t[0].1 + 1), rest);
        DistinctCons((s, t[0].1 + 1), rest);
      } else {
        BumpDistinct(rest, s);
        KeysCons(t[0], Bump(rest, s));
        DistinctCons(t[0], Bump(rest, s));
      }
    }
  }


  function SumCounts(t: Tally): nat
  {
    if t == [] then 0 else t[0].1 + SumCounts(t[1..])
  }

  lemma {:induction false} BumpSum(t: Tally, s: CheckStatus)
    ensures SumCounts(Bump(t, s)) == SumCounts(t) + 1
    decreases |t|
  {
    if t != [] && t[0].0 != s {
      BumpSum(t[1..], s);
      assert Bump(t, s)[1..] == Bump(t[1..], s);
    } else if t != [] {
      assert Bump(t, s)[1..] == t[1..];
    }
  }

  /** Counting the last check moves the count of `q` the way `Count` does,
      given that the tally of the checks before it was right for `q` and
      for the last check's status. */
  lemma TalliedLookupStep(checks: seq<Check>, q: CheckStatus)
    requires checks != []
    requires var front := checks[..|checks| - 1];
      && Lookup(Tallied(front), q) == (if Count(front, q) == 0 then None else Some(Count(front, q)))
      && var s := checks[|checks| - 1].status;
         Lookup(Tallied(front), s) == (if Count(front, s) == 0 then None else Some(Count(front, s)))
    ensures Lookup(Tallied(checks), q) == if Count(checks, q) == 0 then None else Some(Count(checks, q))
  {
    var front := checks[..|checks| - 1];
    var s := checks[|checks| - 1].status;
    var t := Tallied(front);
    assert Tallied(checks) == Bump(t, s);
    assert Count(checks, q) == Count(front, q) + (if s == q then 1 else 0);
    BumpLookup(t, s, q);
    if q == s {
      assert Bumped(t, s, q) == Some(Count(front, q) + 1);
    } else {
      assert Bumped(t, s, q) == Lookup(t, q);
    }
  }

  /** The tally holds each status once; a status is a key exactly when some
      check has it, and then its value is the number of such checks; and
      the values add up to the number of checks. */
  lemma {:induction false} TalliedCounts(checks: seq<Check>)
    ensures DistinctKeys(Tallied(checks))
    ensures SumCounts(Tallied(checks)) == |checks|
    ensures forall s :: Lookup(Tallied(checks), s) == if Count(checks, s) == 0 then None else Some(Count(checks, s))
    decreases |checks|
  {
    if checks != [] {
      var front := checks[..|checks| - 1];
      var s := checks[|checks| - 1].status;
      TalliedCounts(front);
      BumpDistinct(Tallied(front), s);
      BumpSum(Tallied(front), s);
      forall q ensures Lookup(Tallied(checks), q) == if Count(checks, q) == 0 then None else Some(Count(checks, q)) {
        TalliedLookupStep(checks, q);
      }
    }
  }

  /** `Object.entries(statusCounts).map(([name, value]) => ({ name, value }))`. */
  function ChartData(t: Tally): (r: seq<(string, nat)>)
    ensures |r| == |t|
    ensures forall i :: 0 <= i < |t| ==> r[i] == (StatusLabel(t[i].0), t[i].1)
  {
    if t == [] then [] else [(StatusLabel(t[0].0), t[0].1)] + ChartData(t[1..])
  }

  /** The chart has one bar per status some check has, named by the
      status, whose value is that status's count; bars never repeat. */
  lemma ChartDataBars(checks: seq<Check>)
    ensures var bars := ChartData(Tallied(checks));
      && (forall i, j :: 0 <= i < j < |bars| ==> bars[i].0 != bars[j].0)
      && (forall s :: Count(checks, s) > 0 <==> exists i :: 0 <= i < |bars| && bars[i].0 == StatusLabel(s))
      && (forall i, s :: 0 <= i < |bars| && bars[i].0 == StatusLabel(s) ==> bars[i].1 == Count(checks, s))
  {
    var t := Tallied(checks);
    var bars := ChartData(t);
    TalliedCounts(checks);
    forall i, j | 0 <= i < j < |bars| ensures bars[i].0 != bars[j].0 {
      StatusLabelInjective(t[i].0, t[j].0);
    }
    forall s ensures Count(checks, s) > 0 <==> exists i :: 0 <= i < |bars| && bars[i].0 == StatusLabel(s) {
      if Count(checks, s) > 0 {
        var i :| 0 <= i < |t| && t[i].0 == s;
        assert bars[i].0 == StatusLabel(s);
      } else {
        forall i | 0 <= i < |bars| ensures bars[i].0 != StatusLabel(s) {
          StatusLabelInjective(t[i].0, s);
        }
      }
    }
    forall i, s | 0 <= i < |bars| && bars[i].0 == StatusLabel(s) ensures bars[i].1 == Count(checks, s) {
      StatusLabelInjective(t[i].0, s);
      LookupDistinct(t, i);
    }
  }

  /** In a tally with distinct keys, each entry is what its key looks up. */
  lemma {:induction false} LookupDistinct(t: Tally, i: nat)
    requires DistinctKeys(t) && i < |t|
    ensures Lookup(t, t[i].0) == Some(t[i].1)
    decreases |t|
  {
    if i > 0 {
      assert t[0].0 != t[i].0 && t[1..][i - 1] == t[i];
      LookupDistinct(t[1..], i - 1);
    }
  }

  /** The Persian digit zero a stat card shows for a missing status. */
  const PersianZero: string := "۰"

  /** `statusCounts[s]?.toString() || '۰'`. */
  function StatCardValue(t: Tally, s: CheckStatus): (r: string)
    ensures r != []
    ensures r == PersianZero <==> Lookup(t, s).None?
    ensures Lookup(t, s).Some? ==> r == NumberToString(Lookup(t, s).value)
  {
    match Lookup(t, s)
    case None => PersianZero
    case Some(n) => var text := NumberToString(n); if text == [] then PersianZero else text
  }

  /** A stat card shows the Persian zero exactly when no check has the status,
      and the decimal count otherwise. */
  lemma StatCardShowsCount(checks: seq<Check>, s: CheckStatus)
    ensures StatCardValue(Tallied(checks), s) == PersianZero <==> Count(checks, s) == 0
    ensures Count(checks, s) > 0 ==> StatCardValue(Tallied(checks), s) == NumberToString(Count(checks, s))
  {
    TalliedCounts(checks);
    var text := NumberToString(Count(checks, s));
    if Count(checks, s) > 0 {
      assert '0' <= text[0] <= '9';
      assert text != PersianZero;
    }
  }

  function Reverse(checks: seq<Check>): (r: seq<Check>)
    ensures |r| == |checks|
    ensures forall i :: 0 <= i < |checks| ==> r[i] == checks[|checks| - 1 - i]
  {
    if checks == [] then [] else [checks[|checks| - 1]] + Reverse(checks[..|checks| - 1])
  }

  function Min(a: int, b: int): int
  {
    if a <= b then a else b
  }

  /** `[...checks].reverse().slice(0, 5)`: the last five checks, newest
      first. Working on a copy, it leaves `checks` in its order. */
  function RecentChecks(checks: seq<Check>): (r: seq<Check>)
    ensures |r| == Min(5, |checks|)
    ensures forall i :: 0 <= i < |r| ==> r[i] == checks[|checks| - 1 - i]
  {
    Reverse(checks)[..Min(5, |checks|)]
  }

  /** A check registered last is shown first among the recent checks. */
  lemma RecentShowsNewest(checks: seq<Check>, c: Check)
    ensures RecentChecks(checks + [c])[0] == c
    ensures RecentChecks(checks + [c])[1..] == RecentChecks(checks)[..Min(4, |checks|)]
  {
    var r := RecentChecks(checks + [c]);
    assert forall i :: 1 <= i < |r| ==> r[i] == checks[|checks| - i];
  }

  /** The `StatusBadge` class list, defined for every status. */
  function BadgeStyle(s: CheckStatus): (r: string)
    ensures r != []
  {
    match s
    case Pending => "bg-slate-100 text-slate-600"
    case NearDue => "bg-amber-100 text-amber-700"
    case Cleared => "bg-emerald-100 text-emerald-700"
    case Bounced => "bg-red-100 text-red-700"
    case Voided => "bg-slate-200 text-slate-400"
  }

  /** No two statuses share a badge style. */
  lemma BadgeStylesDistinct()
    ensures forall s, t :: BadgeStyle(s) == BadgeStyle(t) ==> s == t
  {
    forall s, t | BadgeStyle(s) == BadgeStyle(t) ensures s == t {
      assert BadgeStyle(s)[3] == BadgeStyle(t)[3] && BadgeStyle(s)[10] == BadgeStyle(t)[10];
    }
  }
}
