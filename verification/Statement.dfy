/**
 * Account statements: bank rows pass through the sign conversions of the API and of the web client,
 * and the totals of the printed statement are taken over the result.
 */
module Statement {

  import opened Wrappers
  import opened PartyOrder
  import opened Ledger
  import opened Sequences
  import opened TransferConcurrency
  import opened TransferSteps

  function Abs(n: int): int
  {
    if n < 0 then -n else n
  }

  /** What the API sends for one bank row; `day` is the date part of its timestamp. */
  datatype ApiRow = ApiRow(day: int, amount: int, balance: Option<int>)

  /** A bank row with its day. */
  datatype DatedEntry = DatedEntry(day: int, entry: Entry)

  datatype DisplayRow = DisplayRow(day: int, credit: bool, amount: int, balance: Option<int>)

  function ToApi(row: DatedEntry): ApiRow
  {
    var positive := row.entry.kind.CreditRow? || row.entry.kind.TransferRow?;
    ApiRow(row.day, if positive then Abs(row.entry.amount) else -Abs(row.entry.amount), Some(row.entry.balanceAfter))
  }

  function ToDisplay(row: ApiRow): DisplayRow
  {
    DisplayRow(row.day, row.amount >= 0, Abs(row.amount), row.balance)
  }

  function Display(rows: seq<DatedEntry>): seq<DisplayRow>
  {
    seq(|rows|, i requires 0 <= i < |rows| => ToDisplay(ToApi(rows[i])))
  }

  function TotalCredits(rows: seq<DisplayRow>): int
  {
    if |rows| == 0 then 0 else TotalCredits(Front(rows)) + (if Last(rows).credit then Last(rows).amount else 0)
  }

  function TotalDebits(rows: seq<DisplayRow>): int
  {
    if |rows| == 0 then 0 else TotalDebits(Front(rows)) + (if Last(rows).credit then 0 else Last(rows).amount)
  }

  function SignedAmount(row: DisplayRow): int
  {
    if row.credit then row.amount else -row.amount
  }

  function OpeningBalance(rows: seq<DisplayRow>): Option<int>
  {
    if |rows| > 0 && rows[0].balance.Some? then Some(rows[0].balance.value - SignedAmount(rows[0])) else None
  }

  function ClosingBalance(rows: seq<DisplayRow>): Option<int>
  {
    if |rows| > 0 then Last(rows).balance else None
  }

  /** The printed statement adds up. */
  predicate AddsUp(rows: seq<DisplayRow>)
  {
    OpeningBalance(rows).Some? && ClosingBalance(rows).Some? &&
    OpeningBalance(rows).value + TotalCredits(rows) - TotalDebits(rows) == ClosingBalance(rows).value
  }

  function Entries(rows: seq<DatedEntry>): seq<Entry>
  {
    seq(|rows|, i requires 0 <= i < |rows| => rows[i].entry)
  }

  /** Both conversions together recover the signed amount of a row stored with the right sign. */
  lemma DisplayKeepsSign(row: DatedEntry)
    requires BankSigns([row.entry])
    ensures SignedAmount(ToDisplay(ToApi(row))) == row.entry.amount
    ensures ToDisplay(ToApi(row)).amount >= 0 && (ToDisplay(ToApi(row)).credit <==> row.entry.amount >= 0)
  {
    assert [row.entry][0] == row.entry;
  }

  lemma {:induction false} TotalsAreSignedSum(rows: seq<DatedEntry>)
    requires BankSigns(Entries(rows))
    ensures TotalCredits(Display(rows)) - TotalDebits(Display(rows)) == SumAmounts(Entries(rows))
  {
    if |rows| > 0 {
      assert Front(Display(rows)) == Display(Front(rows));
      assert Front(Entries(rows)) == Entries(Front(rows));
      assert BankSigns(Entries(Front(rows))) by {
        assert forall i :: 0 <= i < |rows| - 1 ==> Entries(Front(rows))[i] == Entries(rows)[i];
      }
      TotalsAreSignedSum(Front(rows));
      assert Entries(rows)[|rows| - 1] == Last(rows).entry;
      DisplayKeepsSign(Last(rows));
    }
  }

  /** The API sends the stored amount exactly when its sign fits the kind of row. */
  lemma ApiKeepsAmountIff(row: DatedEntry)
    ensures ToApi(row).amount == row.entry.amount <==>
            if row.entry.kind.CreditRow? || row.entry.kind.TransferRow? then row.entry.amount >= 0
            else row.entry.amount <= 0
    ensures ToApi(row).balance == Some(row.entry.balanceAfter) && ToApi(row).day == row.day
  {
  }

  function RowsOfKind(rows: seq<Entry>, kind: EntryKind): seq<Entry>
  {
    if |rows| == 0 then []
    else RowsOfKind(Front(rows), kind) + (if Last(rows).kind == kind then [Last(rows)] else [])
  }

  lemma RowOfKindCounts(rows: seq<Entry>, kind: EntryKind)
    requires |rows| > 0
    ensures SumAmounts(RowsOfKind(rows, kind)) ==
            SumAmounts(RowsOfKind(Front(rows), kind)) + if Last(rows).kind == kind then Last(rows).amount else 0
  {
    var earlier := RowsOfKind(Front(rows), kind);
    assert Front(earlier + [Last(rows)]) == earlier && earlier + [] == earlier;
  }

  lemma FewerRows(rows: seq<DatedEntry>)
    requires |rows| > 0
    ensures |Entries(rows)| == |Display(rows)| == |rows|
    ensures Front(Entries(rows)) == Entries(Front(rows)) && Last(Entries(rows)) == Last(rows).entry
    ensures Front(Display(rows)) == Display(Front(rows)) && Last(Display(rows)) == ToDisplay(ToApi(Last(rows)))
    ensures BankSigns(Entries(rows)) ==> BankSigns(Entries(Front(rows))) && BankSigns([Last(rows).entry])
  {
    var entries := Entries(rows);
    assert forall i :: 0 <= i < |rows| - 1 ==> Entries(Front(rows))[i] == entries[i];
    assert entries[|rows| - 1] == Last(rows).entry;
  }

  /** Credits are what was received, and debits are what was paid. */
  lemma {:induction false} TotalsByKind(rows: seq<DatedEntry>)
    requires BankSigns(Entries(rows)) && forall i :: 0 <= i < |rows| ==> rows[i].entry.amount != 0
    ensures TotalCredits(Display(rows)) == SumAmounts(RowsOfKind(Entries(rows), TransferRow))
    ensures TotalDebits(Display(rows)) == -SumAmounts(RowsOfKind(Entries(rows), DebitRow))
  {
    hide SumAmounts, RowsOfKind, Display;
    if |rows| > 0 {
      FewerRows(rows);
      assert Last(rows) == rows[|rows| - 1];
      TotalsByKind(Front(rows));
      assert [Last(rows).entry][0] == Last(rows).entry;
      RowOfKindCounts(Entries(rows), TransferRow);
      RowOfKindCounts(Entries(rows), DebitRow);
    } else {
      NoRows(rows);
    }
  }

  lemma NoRows(rows: seq<DatedEntry>)
    requires rows == []
    ensures Display(rows) == [] && Entries(rows) == []
    ensures forall kind :: SumAmounts(RowsOfKind([], kind)) == 0
  {
  }

  lemma {:induction false} SumSplits(rows: seq<Entry>, n: nat)
    requires n <= |rows|
    ensures SumAmounts(rows) == SumAmounts(rows[..n]) + SumAmounts(rows[n..])
  {
    if n == |rows| {
      assert rows[..n] == rows;
    } else {
      SumSplits(Front(rows), n);
      assert Front(rows)[..n] == rows[..n];
      assert Front(rows[n..]) == Front(rows)[n..];
    }
  }

  /** A shown row's balance before and after it, in ledger order. */
  lemma RowBalances(start: int, rows: seq<DatedEntry>, k: int)
    requires RunningBalances(start, Entries(rows)) && BankSigns(Entries(rows)) && 0 <= k < |rows|
    ensures var shown := ToDisplay(ToApi(rows[k]));
            shown.balance == Some(start + SumAmounts(Entries(rows)[..k + 1])) &&
            shown.balance.value - SignedAmount(shown) == start + SumAmounts(Entries(rows)[..k])
  {
    var all := Entries(rows);
    assert all[k] == rows[k].entry;
    assert Front(all[..k + 1]) == all[..k];
    DisplayKeepsSign(rows[k]);
  }

  lemma SliceTotals(rows: seq<DatedEntry>, from: nat, to: nat)
    requires BankSigns(Entries(rows)) && from < to <= |rows|
    ensures TotalCredits(Display(rows[from..to])) - TotalDebits(Display(rows[from..to]))
         == SumAmounts(Entries(rows)[..to]) - SumAmounts(Entries(rows)[..from])
  {
    var all := Entries(rows);
    assert Entries(rows[from..to]) == all[from..to];
    TotalsAreSignedSum(rows[from..to]);
    SumSplits(all[..to], from);
    assert all[..to][..from] == all[..from] && all[..to][from..] == all[from..to];
  }

  lemma SliceBalances(start: int, rows: seq<DatedEntry>, from: nat, to: nat)
    requires RunningBalances(start, Entries(rows)) && BankSigns(Entries(rows))
    requires from < to <= |rows|
    ensures OpeningBalance(Display(rows[from..to])) == Some(start + SumAmounts(Entries(rows)[..from]))
    ensures ClosingBalance(Display(rows[from..to])) == Some(start + SumAmounts(Entries(rows)[..to]))
  {
    hide SumAmounts, ToApi, ToDisplay, SignedAmount, RunningBalances, BankSigns;
    RowBalances(start, rows, from);
    RowBalances(start, rows, to - 1);
    var shown := Display(rows[from..to]);
    assert shown[0] == ToDisplay(ToApi(rows[from])) && Last(shown) == ToDisplay(ToApi(rows[to - 1]));
  }

  /**
   * Any non-empty contiguous slice in ledger order adds up, between the balance before its first row
   * and the balance after its last.
   */
  lemma SliceAddsUp(start: int, rows: seq<DatedEntry>, from: nat, to: nat)
    requires RunningBalances(start, Entries(rows)) && BankSigns(Entries(rows))
    requires from < to <= |rows|
    ensures AddsUp(Display(rows[from..to]))
    ensures ClosingBalance(Display(rows[from..to])) == Some(start + SumAmounts(Entries(rows)[..to]))
  {
    SliceBalances(start, rows, from, to);
    SliceTotals(rows, from, to);
  }

  /** The rows an account got since the start, with whatever days they carry. */
  ghost predicate AreAddedRows(start: Db, db: Db, account: Party, rows: seq<DatedEntry>)
  {
    start.ledger <= db.ledger && Entries(rows) == AddedRows(start, db, account)
  }

  lemma StatementsAddUp(start: Db, db: Db, account: Party, rows: seq<DatedEntry>, from: nat, to: nat)
    requires LedgerReplaysTo(start, db, account) && AreAddedRows(start, db, account, rows)
    requires from < to <= |rows|
    ensures AddsUp(Display(rows[from..to]))
    ensures to == |rows| ==> ClosingBalance(Display(rows[from..to])) == Some(db.balances[account])
  {
    SliceAddsUp(start.balances[account], rows, from, to);
    assert Entries(rows)[..|rows|] == Entries(rows);
  }

  /**
   * In every state the transfer machine reaches, every statement over a bank account's added rows, in
   * ledger order, adds up; one that runs to the end closes at the account's current balance.
   */
  lemma StatementInEveryRun(start: State, actions: seq<Action>, id: string)
    requires Initial(start) && ValidRun(start, actions)
    requires forall i :: 0 <= i < |actions| && actions[i].Begin? ==> PositiveAmount(actions[i].command)
    requires Party(Bank, id) in start.db.balances
    ensures var db, account := After(start, actions).db, Party(Bank, id);
            LedgerReplaysTo(start.db, db, account) &&
            forall rows, from: nat, to: nat | AreAddedRows(start.db, db, account, rows) && from < to <= |rows| ::
              AddsUp(Display(rows[from..to])) &&
              (to == |rows| ==> ClosingBalance(Display(rows[from..to])) == Some(db.balances[account]))
  {
    LedgerInEveryRun(start, actions, id);
    var db, account := After(start, actions).db, Party(Bank, id);
    forall rows, from: nat, to: nat | AreAddedRows(start.db, db, account, rows) && from < to <= |rows|
      ensures AddsUp(Display(rows[from..to])) &&
              (to == |rows| ==> ClosingBalance(Display(rows[from..to])) == Some(db.balances[account]))
    {
      StatementsAddUp(start.db, db, account, rows, from, to);
    }
  }

  // --- The order in which the statement dialog passes the rows ------------------------------

  function Reverse(rows: seq<DisplayRow>): seq<DisplayRow>
  {
    seq(|rows|, i requires 0 <= i < |rows| => rows[|rows| - 1 - i])
  }

  function Insert(row: DisplayRow, sorted: seq<DisplayRow>): seq<DisplayRow>
  {
    if |sorted| == 0 || row.day <= sorted[0].day then [row] + sorted
    else [sorted[0]] + Insert(row, sorted[1..])
  }

  /** The stable sort by day: rows of one day keep their order. */
  function SortByDay(rows: seq<DisplayRow>): seq<DisplayRow>
  {
    if |rows| == 0 then [] else Insert(rows[0], SortByDay(rows[1..]))
  }

  /** The API lists the newest row first; the dialog then sorts by day. */
  function DialogOrder(rows: seq<DatedEntry>): seq<DisplayRow>
  {
    SortByDay(Reverse(Display(rows)))
  }

  predicate DaysAscend(rows: seq<DisplayRow>)
  {
    forall i, j :: 0 <= i < j < |rows| ==> rows[i].day <= rows[j].day
  }

  function SignedSum(rows: seq<DisplayRow>): int
  {
    if |rows| == 0 then 0 else SignedSum(Front(rows)) + SignedAmount(Last(rows))
  }

  lemma {:induction false} SignedSumCons(row: DisplayRow, rows: seq<DisplayRow>)
    ensures SignedSum([row] + rows) == SignedAmount(row) + SignedSum(rows)
  {
    if |rows| > 0 {
      SignedSumCons(row, Front(rows));
      assert Front([row] + rows) == [row] + Front(rows);
    } else {
      assert Front([row] + rows) == [];
    }
  }

  lemma {:induction false} TotalsAreSigned(rows: seq<DisplayRow>)
    ensures TotalCredits(rows) - TotalDebits(rows) == SignedSum(rows)
  {
    if |rows| > 0 {
      TotalsAreSigned(Front(rows));
    }
  }

  lemma {:induction false} ReverseKeepsSum(rows: seq<DisplayRow>)
    ensures SignedSum(Reverse(rows)) == SignedSum(rows)
  {
    if |rows| > 0 {
      ReverseKeepsSum(Front(rows));
      SignedSumCons(Last(rows), Reverse(Front(rows)));
      assert Reverse(rows) == [Last(rows)] + Reverse(Front(rows));
    }
  }

  lemma {:induction false} InsertKeeps(row: DisplayRow, sorted: seq<DisplayRow>)
    ensures |Insert(row, sorted)| == |sorted| + 1
    ensures SignedSum(Insert(row, sorted)) == SignedAmount(row) + SignedSum(sorted)
    ensures Insert(row, sorted)[0] == if |sorted| == 0 || row.day <= sorted[0].day then row else sorted[0]
  {
    if |sorted| == 0 || row.day <= sorted[0].day {
      SignedSumCons(row, sorted);
    } else {
      InsertKeeps(row, sorted[1..]);
      SignedSumCons(sorted[0], Insert(row, sorted[1..]));
      SignedSumCons(sorted[0], sorted[1..]);
      assert sorted == [sorted[0]] + sorted[1..];
    }
  }

  /** Insertion into ascending rows puts the row last exactly when its day is later than all others. */
  lemma {:induction false} InsertEnds(row: DisplayRow, sorted: seq<DisplayRow>)
    requires DaysAscend(sorted)
    ensures DaysAscend(Insert(row, sorted)) && |Insert(row, sorted)| == |sorted| + 1
    ensures Last(Insert(row, sorted)) == if |sorted| == 0 || Last(sorted).day < row.day then row else Last(sorted)
  {
    InsertKeeps(row, sorted);
    if |sorted| > 0 && sorted[0].day < row.day {
      InsertEnds(row, sorted[1..]);
      InsertKeeps(row, sorted[1..]);
      var tail := Insert(row, sorted[1..]);
      assert tail[0].day >= sorted[0].day;
      forall i, j | 0 <= i < j < |tail| + 1
        ensures ([sorted[0]] + tail)[i].day <= ([sorted[0]] + tail)[j].day
      {
        assert j == 1 || tail[0].day <= tail[j - 1].day;
      }
    }
  }

  lemma {:induction false} SortKeeps(rows: seq<DisplayRow>)
    ensures |SortByDay(rows)| == |rows| && DaysAscend(SortByDay(rows))
    ensures SignedSum(SortByDay(rows)) == SignedSum(rows)
  {
    if |rows| > 0 {
      SortKeeps(rows[1..]);
      InsertKeeps(rows[0], SortByDay(rows[1..]));
      InsertEnds(rows[0], SortByDay(rows[1..]));
      SignedSumCons(rows[0], rows[1..]);
      assert rows == [rows[0]] + rows[1..];
    }
  }

  function OfDay(rows: seq<DisplayRow>, day: int): seq<DisplayRow>
  {
    if |rows| == 0 then [] else (if rows[0].day == day then [rows[0]] else []) + OfDay(rows[1..], day)
  }

  lemma OfDayFirst(row: DisplayRow, rows: seq<DisplayRow>, day: int)
    ensures OfDay([row] + rows, day) == (if row.day == day then [row] else []) + OfDay(rows, day)
  {
    assert ([row] + rows)[1..] == rows;
  }

  lemma {:induction false} InsertIsStable(row: DisplayRow, sorted: seq<DisplayRow>, day: int)
    requires DaysAscend(sorted)
    ensures OfDay(Insert(row, sorted), day) == OfDay([row] + sorted, day)
  {
    hide OfDay;
    if |sorted| > 0 && sorted[0].day < row.day {
      var first, rest := sorted[0], sorted[1..];
      InsertIsStable(row, rest, day);
      OfDayFirst(first, Insert(row, rest), day);
      OfDayFirst(row, rest, day);
      OfDayFirst(row, sorted, day);
      OfDayFirst(first, rest, day);
      assert sorted == [first] + rest;
      assert first.day != row.day;
    }
  }

  /** The sort puts the days in order and keeps the rows of each day, and their order. */
  lemma {:induction false} SortIsStable(rows: seq<DisplayRow>, day: int)
    ensures DaysAscend(SortByDay(rows)) && OfDay(SortByDay(rows), day) == OfDay(rows, day)
  {
    SortKeeps(rows);
    if |rows| > 0 {
      SortKeeps(rows[1..]);
      SortIsStable(rows[1..], day);
      InsertIsStable(rows[0], SortByDay(rows[1..]), day);
      OfDayFirst(rows[0], SortByDay(rows[1..]), day);
    }
  }

  predicate FirstOfEarliest(rows: seq<DisplayRow>, k: int)
  {
    0 <= k < |rows| &&
    forall i :: 0 <= i < |rows| ==> rows[k].day <= rows[i].day && (i < k ==> rows[k].day < rows[i].day)
  }

  predicate LastOfLatest(rows: seq<DisplayRow>, k: int)
  {
    0 <= k < |rows| &&
    forall i :: 0 <= i < |rows| ==> rows[i].day <= rows[k].day && (k < i ==> rows[i].day < rows[k].day)
  }

  lemma {:induction false} SortBegins(rows: seq<DisplayRow>, k: int)
    requires FirstOfEarliest(rows, k)
    ensures |SortByDay(rows)| == |rows| && SortByDay(rows)[0] == rows[k]
  {
    SortKeeps(rows);
    SortKeeps(rows[1..]);
    InsertKeeps(rows[0], SortByDay(rows[1..]));
    if |rows| > 1 {
      var m := Earliest(rows[1..]);
      SortBegins(rows[1..], m);
      assert rows[1..][m] == rows[m + 1];
      if k > 0 {
        assert FirstOfEarliest(rows[1..], k - 1);
        assert rows[1..][k - 1] == rows[k];
        SortBegins(rows[1..], k - 1);
      }
    }
  }

  lemma {:induction false} Earliest(rows: seq<DisplayRow>) returns (k: int)
    requires |rows| > 0
    ensures FirstOfEarliest(rows, k)
  {
    k := 0;
    if |rows| > 1 {
      var m := Earliest(rows[1..]);
      if rows[m + 1].day < rows[0].day {
        k := m + 1;
      }
      assert forall i :: 1 <= i < |rows| ==> rows[i] == rows[1..][i - 1];
    }
  }

  lemma {:induction false} SortEnds(rows: seq<DisplayRow>, k: int)
    requires LastOfLatest(rows, k)
    ensures |SortByDay(rows)| == |rows| && Last(SortByDay(rows)) == rows[k]
  {
    SortKeeps(rows);
    SortKeeps(rows[1..]);
    InsertEnds(rows[0], SortByDay(rows[1..]));
    if |rows| > 1 {
      var m := Latest(rows[1..]);
      SortEnds(rows[1..], m);
      assert rows[1..][m] == rows[m + 1];
      if k > 0 {
        assert LastOfLatest(rows[1..], k - 1);
        assert rows[1..][k - 1] == rows[k];
        SortEnds(rows[1..], k - 1);
      }
    }
  }

  lemma {:induction false} Latest(rows: seq<DisplayRow>) returns (k: int)
    requires |rows| > 0
    ensures LastOfLatest(rows, k)
  {
    k := 0;
    if |rows| > 1 {
      var m := Latest(rows[1..]);
      if rows[0].day <= rows[m + 1].day {
        k := m + 1;
      }
      assert forall i :: 1 <= i < |rows| ==> rows[i] == rows[1..][i - 1];
    }
  }

  /** Ledger rows in ledger order, their days never going back. */
  predicate InLedgerOrder(start: int, rows: seq<DatedEntry>)
  {
    RunningBalances(start, Entries(rows)) && BankSigns(Entries(rows)) && DaysGoForward(rows)
  }

  predicate DaysGoForward(rows: seq<DatedEntry>)
  {
    forall i, j :: 0 <= i < j < |rows| ==> rows[i].day <= rows[j].day
  }

  predicate EndOfFirstDay(rows: seq<DatedEntry>, a: int)
  {
    0 <= a < |rows| && rows[a].day == rows[0].day && (a + 1 < |rows| ==> rows[0].day < rows[a + 1].day)
  }

  predicate StartOfLastDay(rows: seq<DatedEntry>, b: int)
  {
    0 <= b < |rows| && rows[b].day == Last(rows).day && (b > 0 ==> rows[b - 1].day < Last(rows).day)
  }

  /** The first day has a last row and the last day a first one. */
  lemma FirstAndLastDay(rows: seq<DatedEntry>) returns (a: int, b: int)
    requires |rows| > 0 && DaysGoForward(rows)
    ensures EndOfFirstDay(rows, a) && StartOfLastDay(rows, b)
  {
    a, b := 0, |rows| - 1;
    while a + 1 < |rows| && rows[a + 1].day == rows[0].day
      invariant 0 <= a < |rows| && rows[a].day == rows[0].day
    {
      a := a + 1;
    }
    while b > 0 && rows[b - 1].day == Last(rows).day
      invariant 0 <= b < |rows| && rows[b].day == Last(rows).day
    {
      b := b - 1;
    }
  }

  lemma DialogBegins(rows: seq<DatedEntry>, a: int)
    requires DaysGoForward(rows) && EndOfFirstDay(rows, a)
    ensures |DialogOrder(rows)| == |rows| && DialogOrder(rows)[0] == ToDisplay(ToApi(rows[a]))
  {
    var reversed := Reverse(Display(rows));
    forall i | 0 <= i < |rows|
      ensures reversed[|rows| - 1 - a].day <= reversed[i].day
      ensures i < |rows| - 1 - a ==> reversed[|rows| - 1 - a].day < reversed[i].day
    {
      assert reversed[i] == ToDisplay(ToApi(rows[|rows| - 1 - i]));
    }
    SortBegins(reversed, |rows| - 1 - a);
  }

  lemma DialogEnds(rows: seq<DatedEntry>, b: int)
    requires DaysGoForward(rows) && StartOfLastDay(rows, b)
    ensures |DialogOrder(rows)| == |rows| && Last(DialogOrder(rows)) == ToDisplay(ToApi(rows[b]))
  {
    var reversed := Reverse(Display(rows));
    forall i | 0 <= i < |rows|
      ensures reversed[i].day <= reversed[|rows| - 1 - b].day
      ensures |rows| - 1 - b < i ==> reversed[i].day < reversed[|rows| - 1 - b].day
    {
      assert reversed[i] == ToDisplay(ToApi(rows[|rows| - 1 - i]));
    }
    SortEnds(reversed, |rows| - 1 - b);
  }

  lemma DialogTotals(rows: seq<DatedEntry>)
    requires BankSigns(Entries(rows))
    ensures TotalCredits(DialogOrder(rows)) - TotalDebits(DialogOrder(rows)) == SumAmounts(Entries(rows))
  {
    TotalsAreSigned(DialogOrder(rows));
    SortKeeps(Reverse(Display(rows)));
    ReverseKeepsSum(Display(rows));
    TotalsAreSigned(Display(rows));
    TotalsAreSignedSum(rows);
  }

  lemma DialogBalances(start: int, rows: seq<DatedEntry>, a: int, b: int)
    requires InLedgerOrder(start, rows) && EndOfFirstDay(rows, a) && StartOfLastDay(rows, b)
    ensures OpeningBalance(DialogOrder(rows)) == Some(start + SumAmounts(Entries(rows)[..a]))
    ensures ClosingBalance(DialogOrder(rows)) == Some(start + SumAmounts(Entries(rows)[..b + 1]))
  {
    DialogBegins(rows, a);
    DialogEnds(rows, b);
    RowBalances(start, rows, a);
    RowBalances(start, rows, b);
  }

  /**
   * The dialog's statement adds up exactly when the rows of the first day before its last one and the
   * rows of the last day after its first one cancel out.
   */
  lemma DialogAddsUpIff(start: int, rows: seq<DatedEntry>, a: int, b: int)
    requires InLedgerOrder(start, rows) && EndOfFirstDay(rows, a) && StartOfLastDay(rows, b)
    ensures AddsUp(DialogOrder(rows)) <==>
            SumAmounts(Entries(rows)[..a]) + SumAmounts(Entries(rows)[b + 1..]) == 0
  {
    DialogBalances(start, rows, a, b);
    DialogTotals(rows);
    SumSplits(Entries(rows), b + 1);
  }

  /** One row on the first day and one on the last are enough. */
  lemma DialogAddsUpWithLoneEnds(start: int, rows: seq<DatedEntry>)
    requires InLedgerOrder(start, rows) && EndOfFirstDay(rows, 0) && StartOfLastDay(rows, |rows| - 1)
    ensures AddsUp(DialogOrder(rows))
  {
    DialogAddsUpIff(start, rows, 0, |rows| - 1);
    assert Entries(rows)[..0] == [] && Entries(rows)[|rows|..] == [];
  }

  /** Two deposits on one day do not add up in the dialog's order, although they do in ledger order. */
  lemma DialogCounterexample()
    ensures var account := Party(Bank, "a");
            var rows := [DatedEntry(1, Entry(account, TransferRow, "", 10, 10)),
                         DatedEntry(1, Entry(account, TransferRow, "", 5, 15))];
            InLedgerOrder(0, rows) && AddsUp(Display(rows)) && !AddsUp(DialogOrder(rows))
  {
    hide DialogOrder, AddsUp, Display, LedgerReplaysTo;
    var account := Party(Bank, "a");
    var first, second := Entry(account, TransferRow, "", 10, 10), Entry(account, TransferRow, "", 5, 15);
    var rows := [DatedEntry(1, first), DatedEntry(1, second)];
    assert Entries(rows) == [first, second];
    RunningAppend(0, [], first);
    RunningAppend(0, [first], second);
    assert [] + [first] == [first] && [first] + [second] == [first, second];
    SliceAddsUp(0, rows, 0, 2);
    assert rows[0..2] == rows;
    DialogAddsUpIff(0, rows, 1, 0);
    assert Entries(rows)[..1] == [] + [first] && Entries(rows)[1..] == [] + [second];
    RunningAppend(-5 + 15, [], second.(balanceAfter := 15));
  }
}
