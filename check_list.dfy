/** The check list page (pages/CheckList.tsx): the search filter, the
    status selector on each row, the history timeline and the bank badge. */
module CheckList {
  import opened Wrappers
  import opened Types

  /** `s.includes(t)`, written by recursion on `s`. */
  function Includes(s: string, t: string): (r: bool)
    ensures t <= s ==> r
    ensures r ==> |t| <= |s|
  {
    t <= s || (s != [] && Includes(s[1..], t))
  }

  /** `t` occurs in `s` starting at position `i`. */
  predicate OccursAt(s: string, t: string, i: int)
  {
    0 <= i <= |s| - |t| && s[i..i + |t|] == t
  }

  /** `Includes` holds exactly when `t` occurs in `s` at some position. */
  lemma {:induction false} IncludesAt(s: string, t: string)
    ensures Includes(s, t) <==> exists i :: OccursAt(s, t, i)
  {
    if t <= s {
      assert OccursAt(s, t, 0);
    } else if s == [] {
    } else {
      IncludesAt(s[1..], t);
      if exists i :: OccursAt(s, t, i) {
        var i :| OccursAt(s, t, i);
        assert i != 0;
        assert OccursAt(s[1..], t, i - 1);
      }
      if Includes(s[1..], t) {
        var i :| OccursAt(s[1..], t, i);
        assert OccursAt(s, t, i + 1);
      }
    }
  }

  /** Every string includes the empty one. */
  lemma EverythingIncludesEmpty(s: string)
    ensures Includes(s, [])
  {
  }

  /** The search predicate: the text occurs in the check number, the
      issuer's name or the bank's name. */
  function Matches(c: Check, filter: string): (r: bool)
    ensures r <==> (
      || (exists i :: OccursAt(c.checkNumber, filter, i))
      || (exists i :: OccursAt(c.issuerName, filter, i))
      || (exists i :: OccursAt(c.bankName, filter, i)))
  {
    IncludesAt(c.checkNumber, filter);
    IncludesAt(c.issuerName, filter);
    IncludesAt(c.bankName, filter);
    Includes(c.checkNumber, filter) || Includes(c.issuerName, filter) || Includes(c.bankName, filter)
  }

  /** `a` is `b` with some elements dropped, the rest in their order. */
  predicate Subsequence(a: seq<Check>, b: seq<Check>)
    decreases |b|
  {
    if a == [] then true
    else if b == [] then false
    else (a[0] == b[0] && Subsequence(a[1..], b[1..])) || Subsequence(a, b[1..])
  }

  /** `checks.filter(c => ...)`: the matching checks, in list order and
      each as often as it occurs. */
  function Filtered(checks: seq<Check>, filter: string): (r: seq<Check>)
    ensures Subsequence(r, checks)
    ensures forall c :: c in r ==> Matches(c, filter)
    ensures forall c :: Matches(c, filter) ==> multiset(r)[c] == multiset(checks)[c]
  {
    if checks == [] then []
    else
      assert checks == [checks[0]] + checks[1..];
      var rest := Filtered(checks[1..], filter);
      if Matches(checks[0], filter) then
        assert ([checks[0]] + rest)[1..] == rest;
        [checks[0]] + rest
      else
        SubsequenceOfTail(rest, checks);
        rest
  }

  lemma SubsequenceOfTail(a: seq<Check>, b: seq<Check>)
    requires b != [] && Subsequence(a, b[1..])
    ensures Subsequence(a, b)
  {
  }

  /** With an empty search box every check is listed. */
  lemma {:induction false} EmptyFilterKeepsAll(checks: seq<Check>)
    ensures Filtered(checks, []) == checks
  {
    if checks != [] {
      EverythingIncludesEmpty(checks[0].checkNumber);
      EmptyFilterKeepsAll(checks[1..]);
      assert checks == [checks[0]] + checks[1..];
    }
  }

  /** The options of the status selector: `Object.values(CheckStatus)`. */
  function SelectorOptions(): (r: seq<string>)
    ensures |r| == |AllStatuses|
    ensures forall i :: 0 <= i < |r| ==> r[i] == StatusLabel(AllStatuses[i])
  {
    seq(|AllStatuses|, i requires 0 <= i < |AllStatuses| => StatusLabel(AllStatuses[i]))
  }

  /** The selector's `onChange`: the chosen option's value, read back as a
      status, is forwarded with the id of the row's own check. */
  function OnSelect(c: Check, option: nat): (r: (string, CheckStatus))
    requires option < |SelectorOptions()|
    ensures r.0 == c.id && StatusLabel(r.1) == SelectorOptions()[option]
  {
    var value := SelectorOptions()[option];
    match ParseStatus(value)
    case Some(s) => (c.id, s)
    case None => (c.id, AllStatuses[option])
  }

  /** The position of a status among the selector's options. */
  function OptionIndex(s: CheckStatus): (r: nat)
    ensures r < |AllStatuses| && AllStatuses[r] == s
  {
    match s
    case Pending => 0
    case NearDue => 1
    case Cleared => 2
    case Bounced => 3
    case Voided => 4
  }

  /** The selector offers each of the five statuses exactly once, and
      picking the option of a status forwards that status. */
  lemma SelectorOffersEveryStatus(c: Check)
    ensures |SelectorOptions()| == 5
    ensures forall i, j :: 0 <= i < j < 5 ==> SelectorOptions()[i] != SelectorOptions()[j]
    ensures forall s :: OptionIndex(s) < |SelectorOptions()| && OnSelect(c, OptionIndex(s)) == (c.id, s)
  {
    StatusEnumClosed();
    forall s ensures OnSelect(c, OptionIndex(s)) == (c.id, s) {
      assert ParseStatus(SelectorOptions()[OptionIndex(s)]) == Some(s);
    }
  }

  /** One row of the history timeline; `newest` is the highlighted dot. */
  datatype HistoryRow = HistoryRow(entry: HistoryEntry, newest: bool)

  /** `history.map((entry, idx) => ...)`: entries in stored order, the
      first one (the newest) highlighted. */
  function HistoryRows(history: seq<HistoryEntry>): (r: seq<HistoryRow>)
    ensures |r| == |history|
    ensures forall i :: 0 <= i < |r| ==> r[i].entry == history[i] && (r[i].newest <==> i == 0)
  {
    seq(|history|, i requires 0 <= i < |history| => HistoryRow(history[i], i == 0))
  }

  /** On a well-formed check the highlighted row leads to the current status. */
  lemma HighlightedIsCurrent(c: Check)
    requires WellFormed(c)
    ensures exists i :: 0 <= i < |HistoryRows(c.history)| && HistoryRows(c.history)[i].newest
    ensures forall i :: 0 <= i < |HistoryRows(c.history)| && HistoryRows(c.history)[i].newest ==>
      HistoryRows(c.history)[i].entry.toStatus == c.status
  {
    assert HistoryRows(c.history)[0].newest;
  }

  function Clamp(x: int, n: nat): (r: nat)
    ensures r <= n
  {
    if x < 0 then 0 else if x > n then n else x
  }

  /** `String.prototype.substring(start, end)` for integer arguments: both
      ends are clamped to the string, then swapped if in the wrong order. */
  function Substring(s: string, start: int, end: int): (r: string)
    ensures Clamp(start, |s|) <= Clamp(end, |s|) ==> r == s[Clamp(start, |s|)..Clamp(end, |s|)]
    ensures Clamp(end, |s|) < Clamp(start, |s|) ==> r == s[Clamp(end, |s|)..Clamp(start, |s|)]
  {
    var a := Clamp(start, |s|);
    var b := Clamp(end, |s|);
    if a <= b then s[a..b] else s[b..a]
  }

  /** The order of the two ends does not matter. */
  lemma SubstringSymmetric(s: string, start: int, end: int)
    ensures Substring(s, start, end) == Substring(s, end, start)
  {
  }

  /** The badge on a row: `bankName.substring(5, 7)`. */
  function BankBadge(bankName: string): (r: string)
    ensures |bankName| <= 5 ==> r == []
    ensures |bankName| >= 7 ==> r == bankName[5..7]
    ensures |bankName| == 6 ==> r == bankName[5..]
  {
    Substring(bankName, 5, 7)
  }
}
