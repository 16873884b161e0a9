/** The portfolio valuation of `getSummary` and `getTotalsRow`
    (index.js:217-305), as functions; `Session.Insight.BuildSummary` runs
    the accumulation loops and is proved to compute `Summary`.

    Numbers are `real`. Where the source divides, the result is a `Num`
    that says what JavaScript produces when the divisor is zero
    (`Infinity`, `-Infinity` or `NaN`); nothing guards it. */
module Valuation {
  import opened Wrappers
  import opened Ledger
  import opened Sorting
  import opened Sync

  // ------------------------------------------------------- classification

  /** `isReward` (index.js:217-219): staking and inflation rewards. */
  predicate IsReward(t: Transaction): (r: bool)
    ensures r ==> t.kind != "buy" && t.kind != "sell" && t.kind != "send"
  {
    t.kind == "staking_reward" || t.kind == "inflation_reward"
  }

  /** `isSent` (index.js:221-227): a send of anything but USD, unless the
      "s" flag (`includeSent`) is given. */
  predicate IsSent(t: Transaction, includeSent: bool): (r: bool)
    ensures includeSent ==> !r
    ensures t.code == "USD" || t.kind != "send" ==> !r
    ensures r ==> !IsReward(t)
  {
    !includeSent && t.kind == "send" && t.code != "USD"
  }

  // ------------------------------------------------------------ arithmetic

  /** `x` is a whole number of cents. */
  predicate Cents(x: real) {
    (x * 100.0).Floor as real == x * 100.0
  }

  /** `round` (index.js:229-231): `Math.round(x * 100) / 100`, the nearest
      cent, a half cent going up (towards +infinity). */
  function Round(x: real): (r: real)
    ensures x - 0.005 < r <= x + 0.005
    ensures Cents(r)
  {
    (x * 100.0 + 0.5).Floor as real / 100.0
  }

  /** `sum` (index.js:233-235): `reduce` with no initial value, so the
      list must not be empty; it adds from the left. */
  function Sum(xs: seq<real>): (r: real)
    requires |xs| > 0
    ensures r == Total(xs)
  {
    if |xs| == 1 then xs[0]
    else
      var n := |xs| - 1;
      TotalAppend(xs[..n], [xs[n]]);
      assert xs[..n] + [xs[n]] == xs;
      Sum(xs[..n]) + xs[n]
  }

  /** The ordinary total, from zero. */
  function Total(xs: seq<real>): real {
    if xs == [] then 0.0 else xs[0] + Total(xs[1..])
  }

  /** What a JavaScript number can be after a division. */
  datatype Num = Finite(value: real) | PositiveInfinity | NegativeInfinity | NaN

  /** `x / y` in JavaScript. */
  function Divide(x: real, y: real): (q: Num)
    ensures q.Finite? <==> y != 0.0
    ensures q.Finite? ==> q.value * y == x
    ensures q == NaN <==> x == 0.0 && y == 0.0
    ensures q == PositiveInfinity <==> x > 0.0 && y == 0.0
  {
    if y != 0.0 then Finite(x / y)
    else if x > 0.0 then PositiveInfinity
    else if x < 0.0 then NegativeInfinity
    else NaN
  }

  /** `round((x / y) * 100)`: a percentage to the cent, or what the
      division by zero gives (rounding leaves it as it is). */
  function Percent(x: real, y: real): (p: Num)
    ensures p.Finite? <==> y != 0.0
    ensures p.Finite? ==> x / y * 100.0 - 0.005 < p.value <= x / y * 100.0 + 0.005
    ensures p.Finite? ==> Cents(p.value)
    ensures !p.Finite? ==> p == Divide(x, y)
  {
    match Divide(x, y)
    case Finite(q) => Finite(Round(q * 100.0))
    case other => other
  }

  // ------------------------------------------------------------- selection

  /** The transactions of one account (index.js:245): same currency, and
      not an excluded send; in their stored order. */
  function Selected(ts: seq<Transaction>, code: Code, includeSent: bool): (r: seq<Transaction>)
    ensures forall t :: t in r <==> t in ts && t.code == code && !IsSent(t, includeSent)
  {
    if ts == [] then []
    else
      var n := |ts| - 1;
      assert ts == ts[..n] + [ts[n]];
      Selected(ts[..n], code, includeSent)
        + (if ts[n].code == code && !IsSent(ts[n], includeSent) then [ts[n]] else [])
  }

  /** The sends `isSent` excludes from an account by default. */
  function SentOf(ts: seq<Transaction>, code: Code): (r: seq<Transaction>)
    ensures forall t :: t in r <==> t in ts && t.code == code && IsSent(t, false)
  {
    if ts == [] then []
    else
      var n := |ts| - 1;
      assert ts == ts[..n] + [ts[n]];
      SentOf(ts[..n], code) + (if ts[n].code == code && IsSent(ts[n], false) then [ts[n]] else [])
  }

  /** The held amount: the sum of the amounts (index.js:247). */
  function Held(s: seq<Transaction>): real {
    if s == [] then 0.0 else Held(s[..|s| - 1]) + s[|s| - 1].amount
  }

  /** The cost basis: the sum of the USD values of everything but rewards
      (index.js:248). */
  function Invested(s: seq<Transaction>): real {
    if s == [] then 0.0
    else Invested(s[..|s| - 1]) + (if IsReward(s[|s| - 1]) then 0.0 else s[|s| - 1].usd)
  }

  /** `Array.prototype.find` by type (index.js:255-256): the first
      transaction of kind `kind`. */
  function FirstOfKind(s: seq<Transaction>, kind: string): (r: Option<Transaction>)
    ensures r.None? <==> forall t :: t in s ==> t.kind != kind
    ensures r.Some? ==> r.value.kind == kind
    ensures r.Some? ==>
      exists i :: 0 <= i < |s| && s[i] == r.value && forall j :: 0 <= j < i ==> s[j].kind != kind
  {
    if s == [] then None
    else if s[0].kind == kind then
      assert s[0] == s[0];
      Some(s[0])
    else
      var r := FirstOfKind(s[1..], kind);
      assert forall t :: t in s ==> t == s[0] || t in s[1..];
      if r.Some? then
        var i :| 0 <= i < |s[1..]| && s[1..][i] == r.value && forall j :: 0 <= j < i ==> s[1..][j].kind != kind;
        assert s[i + 1] == r.value && forall j :: 0 <= j < i + 1 ==> s[j].kind != kind;
        r
      else r
  }

  // ------------------------------------------------------------------- rows

  /** `pctChangeLastBuy` and `pctChangeLastSell` are a rounded percentage or
      the empty string. */
  datatype Signal = Blank | Pct(value: real)

  /** A signal as the sort's subtraction reads it: `""` becomes 0. */
  function SignalValue(s: Signal): real {
    match s
    case Blank => 0.0
    case Pct(v) => v
  }

  /** One row of the summary (index.js:270-286). A date is the stored
      instant of the last buy or sell, absent when there is none. */
  datatype SummaryRow = SummaryRow(
    name: string, code: Code, avgInvestPrice: Num, currentPrice: real,
    lastBuyPrice: Option<real>, pctChangeLastBuy: Signal,
    lastSellPrice: Option<real>, pctChangeLastSell: Signal,
    amount: real, currentValue: real, investedValue: real,
    valueDifference: real, pctChangeValue: Num,
    lastBuyDate: Option<Instant>, lastSellDate: Option<Instant>)

  /** `lastBuy?.date ?? 0` compared as a `Date` (index.js:259-261): the
      instant's time, or the epoch when absent. */
  function TimeOrZero(d: Option<Instant>): int {
    if d.Some? then d.value.time else 0
  }

  /** `soldLast` (index.js:261): the last sell is later than the last buy,
      absent dates counting as the epoch. */
  predicate SoldLast(row: SummaryRow) {
    TimeOrZero(row.lastBuyDate) < TimeOrZero(row.lastSellDate)
  }

  /** The change of the current price against an earlier price, rounded
      (index.js:262-269); only taken when that price is not zero. */
  function ChangeSince(currentPrice: real, price: real): real
    requires price != 0.0
  {
    Round((currentPrice - price) / price * 100.0)
  }

  /** The row of an account whose selected transactions `txns` (newest
      first) add up to `amount` held and `investedValue` paid
      (index.js:250-286). A price signal is taken against the last buy
      unless the account sold last, and against the last sell if it did,
      so at most one of the two is set; a zero or absent price gives none. */
  function MakeRow(account: Account, amount: real, investedValue: real, txns: seq<Transaction>, currentPrice: real): (row: SummaryRow)
    ensures row.name == account.name && row.code == account.code && row.currentPrice == currentPrice
    ensures row.amount == amount && row.investedValue == investedValue
    ensures row.currentValue == Round(amount * currentPrice)
    ensures row.valueDifference == Round(row.currentValue - investedValue)
    ensures row.pctChangeValue == Percent(row.valueDifference, investedValue)
    ensures row.avgInvestPrice == Divide(investedValue, amount)
    ensures var lastBuy := FirstOfKind(txns, "buy");
      row.lastBuyPrice == (if lastBuy.Some? then Some(lastBuy.value.price) else None) &&
      row.lastBuyDate == (if lastBuy.Some? then Some(lastBuy.value.date) else None)
    ensures var lastSell := FirstOfKind(txns, "sell");
      row.lastSellPrice == (if lastSell.Some? then Some(lastSell.value.price) else None) &&
      row.lastSellDate == (if lastSell.Some? then Some(lastSell.value.date) else None)
    ensures !(row.pctChangeLastBuy.Pct? && row.pctChangeLastSell.Pct?)
    ensures row.pctChangeLastBuy.Pct? <==>
      !SoldLast(row) && row.lastBuyPrice.Some? && row.lastBuyPrice.value != 0.0
    ensures row.pctChangeLastSell.Pct? <==>
      SoldLast(row) && row.lastSellPrice.Some? && row.lastSellPrice.value != 0.0
    ensures row.pctChangeLastBuy.Pct? ==>
      row.pctChangeLastBuy.value == ChangeSince(currentPrice, row.lastBuyPrice.value)
    ensures row.pctChangeLastSell.Pct? ==>
      row.pctChangeLastSell.value == ChangeSince(currentPrice, row.lastSellPrice.value)
  {
    var currentValue := Round(amount * currentPrice);
    var valueDifference := Round(currentValue - investedValue);
    var lastBuy := FirstOfKind(txns, "buy");
    var lastSell := FirstOfKind(txns, "sell");
    var lastBuyPrice := if lastBuy.Some? then Some(lastBuy.value.price) else None;
    var lastSellPrice := if lastSell.Some? then Some(lastSell.value.price) else None;
    var lastBuyDate := if lastBuy.Some? then Some(lastBuy.value.date) else None;
    var lastSellDate := if lastSell.Some? then Some(lastSell.value.date) else None;
    var soldLast := TimeOrZero(lastBuyDate) < TimeOrZero(lastSellDate);
    var pctChangeLastBuy :=
      if !soldLast && lastBuyPrice.Some? && lastBuyPrice.value != 0.0
      then Pct(ChangeSince(currentPrice, lastBuyPrice.value)) else Blank;
    var pctChangeLastSell :=
      if soldLast && lastSellPrice.Some? && lastSellPrice.value != 0.0
      then Pct(ChangeSince(currentPrice, lastSellPrice.value)) else Blank;
    SummaryRow(
      account.name, account.code, Divide(investedValue, amount), currentPrice,
      lastBuyPrice, pctChangeLastBuy, lastSellPrice, pctChangeLastSell,
      amount, currentValue, investedValue, valueDifference,
      Percent(valueDifference, investedValue), lastBuyDate, lastSellDate)
  }

  /** The row of `account` over all stored transactions. */
  function AccountRow(account: Account, ts: seq<Transaction>, prices: map<Code, real>, includeSent: bool): (row: SummaryRow)
    requires account.code in prices
    ensures var txns := Selected(ts, account.code, includeSent);
      row.amount == Held(txns) && row.investedValue == Invested(txns) &&
      row.currentPrice == prices[account.code]
  {
    var txns := Selected(ts, account.code, includeSent);
    MakeRow(account, Held(txns), Invested(txns), txns, prices[account.code])
  }

  /** With the stored list newest first, as `getTransactions` leaves it,
      the row's last buy and last sell are transactions of the account and
      the latest of their kind, and are absent exactly when the account has
      none of that kind (index.js:255-260). */
  lemma {:induction false} LastTradesAreLatest(account: Account, ts: seq<Transaction>, prices: map<Code, real>, includeSent: bool)
    requires account.code in prices
    requires SortedBy(ts, NewerFirst)
    ensures var row := AccountRow(account, ts, prices, includeSent);
      var txns := Selected(ts, account.code, includeSent);
      (row.lastBuyDate.None? <==> forall t :: t in txns ==> t.kind != "buy") &&
      (row.lastBuyDate.Some? ==>
         (exists t :: t in txns && t.kind == "buy" && t.date == row.lastBuyDate.value) &&
         forall t :: t in txns && t.kind == "buy" ==> t.date.time <= row.lastBuyDate.value.time)
    ensures var row := AccountRow(account, ts, prices, includeSent);
      var txns := Selected(ts, account.code, includeSent);
      (row.lastSellDate.None? <==> forall t :: t in txns ==> t.kind != "sell") &&
      (row.lastSellDate.Some? ==>
         (exists t :: t in txns && t.kind == "sell" && t.date == row.lastSellDate.value) &&
         forall t :: t in txns && t.kind == "sell" ==> t.date.time <= row.lastSellDate.value.time)
  {
    var txns := Selected(ts, account.code, includeSent);
    SelectedKeepsOrder(ts, account.code, includeSent, NewerFirst);
    forall i, j | 0 <= i < j < |txns| ensures txns[i].date.time >= txns[j].date.time {
      assert NewerFirst(txns[i], txns[j]);
    }
    LatestOfKind(txns, "buy");
    LatestOfKind(txns, "sell");
  }

  /** `FirstOfKind` on a list ordered newest first: a transaction of the
      list, and the latest of its kind. */
  lemma LatestOfKind(s: seq<Transaction>, kind: string)
    requires forall i, j :: 0 <= i < j < |s| ==> s[i].date.time >= s[j].date.time
    ensures var r := FirstOfKind(s, kind);
      r.Some? ==> r.value in s && forall t :: t in s && t.kind == kind ==> t.date.time <= r.value.date.time
  {
    var r := FirstOfKind(s, kind);
    if r.Some? {
      FirstIsLatest(s, kind);
      var i :| 0 <= i < |s| && s[i] == r.value && forall j :: 0 <= j < i ==> s[j].kind != kind;
    }
  }

  /** One row per account, in account order. */
  function Rows(accounts: seq<Account>, ts: seq<Transaction>, prices: map<Code, real>, includeSent: bool): (r: seq<SummaryRow>)
    requires forall a :: a in accounts ==> a.code in prices
    ensures |r| == |accounts|
    ensures forall j :: 0 <= j < |r| ==> r[j] == AccountRow(accounts[j], ts, prices, includeSent)
  {
    if accounts == [] then []
    else
      var n := |accounts| - 1;
      assert forall a :: a in accounts[..n] ==> a in accounts;
      Rows(accounts[..n], ts, prices, includeSent) + [AccountRow(accounts[n], ts, prices, includeSent)]
  }

  /** The rows of the first `k + 1` accounts: those of the first `k`,
      then that of account `k`. */
  lemma {:induction false} RowsStep(accounts: seq<Account>, k: nat, ts: seq<Transaction>, prices: map<Code, real>, includeSent: bool)
    requires forall a :: a in accounts ==> a.code in prices
    requires k < |accounts|
    ensures forall a :: a in accounts[..k] ==> a.code in prices
    ensures Rows(accounts[..k + 1], ts, prices, includeSent)
         == Rows(accounts[..k], ts, prices, includeSent) + [AccountRow(accounts[k], ts, prices, includeSent)]
  {
    assert accounts[..k + 1][..k] == accounts[..k];
  }

  /** The comparator of index.js:289: `pctChangeLastBuy` descending, then
      `pctChangeLastSell` ascending, a blank counting as 0. */
  function CompareRows(a: SummaryRow, b: SummaryRow): (r: real)
    ensures var buyA, buyB := SignalValue(a.pctChangeLastBuy), SignalValue(b.pctChangeLastBuy);
      var sellA, sellB := SignalValue(a.pctChangeLastSell), SignalValue(b.pctChangeLastSell);
      (r < 0.0 <==> buyA > buyB || (buyA == buyB && sellA < sellB)) &&
      (r == 0.0 <==> buyA == buyB && sellA == sellB)
  {
    var byBuy := SignalValue(b.pctChangeLastBuy) - SignalValue(a.pctChangeLastBuy);
    if byBuy != 0.0 then byBuy
    else SignalValue(a.pctChangeLastSell) - SignalValue(b.pctChangeLastSell)
  }

  /** `a` may stand before `b` in the summary. */
  predicate RowBefore(a: SummaryRow, b: SummaryRow) {
    CompareRows(a, b) <= 0.0
  }

  lemma RowBeforeIsTotalPreorder()
    ensures TotalPreorder(RowBefore)
  {
  }

  // ----------------------------------------------------------------- totals

  /** The totals row (index.js:294-305); it lacks the other columns. */
  datatype TotalsRow = TotalsRow(currentValue: real, investedValue: real, valueDifference: real, pctChangeValue: Num)

  function InvestedColumn(rows: seq<SummaryRow>): (r: seq<real>)
    ensures |r| == |rows|
  {
    if rows == [] then [] else [rows[0].investedValue] + InvestedColumn(rows[1..])
  }

  function CurrentColumn(rows: seq<SummaryRow>): (r: seq<real>)
    ensures |r| == |rows|
  {
    if rows == [] then [] else [rows[0].currentValue] + CurrentColumn(rows[1..])
  }

  /** `getTotalsRow` (index.js:294-305). `sum` has no initial value, so
      there must be a row. The difference is not rounded here, unlike an
      account's. */
  function TotalsOf(rows: seq<SummaryRow>): (t: TotalsRow)
    requires |rows| > 0
    ensures t.investedValue == Total(InvestedColumn(rows))
    ensures t.currentValue == Total(CurrentColumn(rows))
    ensures t.valueDifference == t.currentValue - t.investedValue
    ensures t.pctChangeValue == Percent(t.valueDifference, t.investedValue)
    ensures t.pctChangeValue.Finite? <==> t.investedValue != 0.0
  {
    var investedValue := Sum(InvestedColumn(rows));
    var currentValue := Sum(CurrentColumn(rows));
    var valueDifference := currentValue - investedValue;
    TotalsRow(currentValue, investedValue, valueDifference, Percent(valueDifference, investedValue))
  }

  // ---------------------------------------------------------------- summary

  /** The summary report: the sorted account rows, then the totals row. */
  datatype Report = Report(rows: seq<SummaryRow>, totals: TotalsRow)

  /** `reduce` of an empty array throws; the run's catch logs it. */
  datatype SummaryError = ReduceOfEmptyArray

  /** The end of `getSummary` (index.js:289-290): the rows sorted by the
      price signals, then the totals row; with no row there is nothing to
      sum and the step fails. */
  function Finish(rows: seq<SummaryRow>): (r: Result<Report, SummaryError>)
    ensures r.Success? <==> rows != []
  {
    if rows == [] then Failure(ReduceOfEmptyArray)
    else
      var sorted := SortBy(rows, RowBefore);
      assert |sorted| == |multiset(sorted)| == |multiset(rows)| == |rows|;
      Success(Report(sorted, TotalsOf(sorted)))
  }

  /** What `getSummary` computes (index.js:237-292). */
  function Summary(accounts: seq<Account>, ts: seq<Transaction>, prices: map<Code, real>, includeSent: bool): (r: Result<Report, SummaryError>)
    requires forall a :: a in accounts ==> a.code in prices
    ensures r.Success? <==> accounts != []
  {
    Finish(Rows(accounts, ts, prices, includeSent))
  }

  /** The report holds one row per account, ordered by the price signals,
      accounts whose rows tie keeping their order; the totals are those of
      the rows in any order. */
  lemma SummaryRows(accounts: seq<Account>, ts: seq<Transaction>, prices: map<Code, real>, includeSent: bool)
    requires forall a :: a in accounts ==> a.code in prices
    requires accounts != []
    ensures var rows := Rows(accounts, ts, prices, includeSent);
      var report := Summary(accounts, ts, prices, includeSent).value;
      SortedBy(report.rows, RowBefore) &&
      multiset(report.rows) == multiset(rows) &&
      (forall x :: Ties(report.rows, x, RowBefore) == Ties(rows, x, RowBefore)) &&
      report.totals == TotalsOf(rows)
  {
    var rows := Rows(accounts, ts, prices, includeSent);
    RowBeforeIsTotalPreorder();
    SortByIsSorted(rows, RowBefore);
    forall x ensures Ties(SortBy(rows, RowBefore), x, RowBefore) == Ties(rows, x, RowBefore) {
      SortByIsStable(rows, x, RowBefore);
    }
    TotalsIgnoreOrder(rows);
  }

  // ----------------------------------------------------------------- lemmas

  lemma {:induction false} TotalAppend(a: seq<real>, b: seq<real>)
    ensures Total(a + b) == Total(a) + Total(b)
  {
    if a == [] {
      assert a + b == b;
    } else {
      assert (a + b)[1..] == a[1..] + b;
      TotalAppend(a[1..], b);
    }
  }

  /** A value already in cents is left as it is: rounding is idempotent. */
  lemma RoundKeepsCents(x: real)
    requires Cents(x)
    ensures Round(x) == x
  {
    var k := (x * 100.0).Floor;
    assert (x * 100.0 + 0.5).Floor == k;
  }

  /** Rounding is monotone. */
  lemma RoundMonotone(x: real, y: real)
    requires x <= y
    ensures Round(x) <= Round(y)
  {
    assert (x * 100.0 + 0.5).Floor <= (y * 100.0 + 0.5).Floor;
  }

  /** `Math.round` takes a half up: a half cent above zero rounds away from
      it, a half cent below zero rounds towards it. */
  lemma RoundHalves()
    ensures Round(100.005) == 100.01
    ensures Round(-1.005) == -1.0
    ensures Round(-0.005) == 0.0
  {
    assert (100.005 * 100.0 + 0.5).Floor == 10001;
    assert (-1.005 * 100.0 + 0.5).Floor == -100;
    assert (-0.005 * 100.0 + 0.5).Floor == 0;
  }

  /** The "s" flag puts back exactly the excluded sends: the amount and the
      cost basis with it are those without it plus those of the sends. */
  lemma {:induction false} SentSwitch(ts: seq<Transaction>, code: Code)
    ensures Held(Selected(ts, code, true)) == Held(Selected(ts, code, false)) + Held(SentOf(ts, code))
    ensures Invested(Selected(ts, code, true)) == Invested(Selected(ts, code, false)) + Invested(SentOf(ts, code))
  {
    if ts != [] {
      var n := |ts| - 1;
      var t := ts[n];
      var prev := ts[..n];
      assert prev + [t] == ts;
      SentSwitch(prev, code);
      SelectOne(prev, t, code);
      if t.code == code {
        SentSwitchStep(Selected(prev, code, true), Selected(prev, code, false), SentOf(prev, code), t, IsSent(t, false));
      } else {
        SentSwitchSkip(prev, t, code);
      }
    }
  }

  /** One step of `SentSwitch`: `t` joins either the kept or the sent part
      of the account's transactions. */
  lemma {:induction false} SentSwitchStep(all: seq<Transaction>, kept: seq<Transaction>, sent: seq<Transaction>, t: Transaction, toSent: bool)
    requires Held(all) == Held(kept) + Held(sent)
    requires Invested(all) == Invested(kept) + Invested(sent)
    ensures toSent ==> Held(all + [t]) == Held(kept) + Held(sent + [t])
    ensures toSent ==> Invested(all + [t]) == Invested(kept) + Invested(sent + [t])
    ensures !toSent ==> Held(all + [t]) == Held(kept + [t]) + Held(sent)
    ensures !toSent ==> Invested(all + [t]) == Invested(kept + [t]) + Invested(sent)
  {
    AppendOne(all, t);
    if toSent {
      AppendOne(sent, t);
    } else {
      AppendOne(kept, t);
    }
  }

  lemma {:induction false} SentSwitchSkip(ts: seq<Transaction>, t: Transaction, code: Code)
    requires t.code != code
    requires Held(Selected(ts, code, true)) == Held(Selected(ts, code, false)) + Held(SentOf(ts, code))
    requires Invested(Selected(ts, code, true)) == Invested(Selected(ts, code, false)) + Invested(SentOf(ts, code))
    ensures Held(Selected(ts + [t], code, true)) == Held(Selected(ts + [t], code, false)) + Held(SentOf(ts + [t], code))
    ensures Invested(Selected(ts + [t], code, true)) == Invested(Selected(ts + [t], code, false)) + Invested(SentOf(ts + [t], code))
  {
    SelectOne(ts, t, code);
  }

  lemma {:induction false} SelectOne(ts: seq<Transaction>, t: Transaction, code: Code)
    ensures t.code != code ==>
      Selected(ts + [t], code, true) == Selected(ts, code, true) &&
      Selected(ts + [t], code, false) == Selected(ts, code, false) &&
      SentOf(ts + [t], code) == SentOf(ts, code)
    ensures t.code == code ==> Selected(ts + [t], code, true) == Selected(ts, code, true) + [t]
    ensures t.code == code && IsSent(t, false) ==>
      Selected(ts + [t], code, false) == Selected(ts, code, false) &&
      SentOf(ts + [t], code) == SentOf(ts, code) + [t]
    ensures t.code == code && !IsSent(t, false) ==>
      Selected(ts + [t], code, false) == Selected(ts, code, false) + [t] &&
      SentOf(ts + [t], code) == SentOf(ts, code)
  {
    var ts' := ts + [t];
    assert ts'[..|ts|] == ts && ts'[|ts|] == t;
    assert Selected(ts, code, true) + [] == Selected(ts, code, true);
    assert Selected(ts, code, false) + [] == Selected(ts, code, false);
    assert SentOf(ts, code) + [] == SentOf(ts, code);
  }

  lemma {:induction false} AppendOne(s: seq<Transaction>, t: Transaction)
    ensures Held(s + [t]) == Held(s) + t.amount
    ensures Invested(s + [t]) == Invested(s) + (if IsReward(t) then 0.0 else t.usd)
  {
    assert (s + [t])[..|s|] == s;
  }

  /** A reward adds to the amount held but not to the cost basis. */
  lemma {:induction false} RewardsAreFree(s: seq<Transaction>, t: Transaction)
    requires IsReward(t)
    ensures Held(s + [t]) == Held(s) + t.amount
    ensures Invested(s + [t]) == Invested(s)
  {
    AppendOne(s, t);
  }

  /** Keeping some elements of a sorted list keeps it sorted; so an
      account's selection is newest first like the stored list. */
  lemma {:induction false} SelectedKeepsOrder(ts: seq<Transaction>, code: Code, includeSent: bool, le: (Transaction, Transaction) -> bool)
    requires SortedBy(ts, le)
    ensures SortedBy(Selected(ts, code, includeSent), le)
  {
    if ts != [] {
      var n := |ts| - 1;
      assert SortedBy(ts[..n], le);
      SelectedKeepsOrder(ts[..n], code, includeSent, le);
      var s := Selected(ts[..n], code, includeSent);
      forall y | y in s ensures le(y, ts[n]) {
        var i :| 0 <= i < n && ts[..n][i] == y;
      }
    }
  }

  /** In a list ordered newest first, the first transaction of a kind is
      the latest of that kind: `lastBuy` is the last buy. */
  lemma {:induction false} FirstIsLatest(s: seq<Transaction>, kind: string)
    requires forall i, j :: 0 <= i < j < |s| ==> s[i].date.time >= s[j].date.time
    requires FirstOfKind(s, kind).Some?
    ensures forall t :: t in s && t.kind == kind ==> t.date.time <= FirstOfKind(s, kind).value.date.time
  {
    var r := FirstOfKind(s, kind).value;
    var i :| 0 <= i < |s| && s[i] == r && forall j :: 0 <= j < i ==> s[j].kind != kind;
    forall t | t in s && t.kind == kind ensures t.date.time <= r.date.time {
      var k :| 0 <= k < |s| && s[k] == t;
      assert i <= k;
    }
  }

  /** The totals do not depend on the order of the rows. */
  lemma {:induction false} TotalsIgnoreOrder(rows: seq<SummaryRow>)
    requires |rows| > 0
    ensures TotalsOf(SortBy(rows, RowBefore)) == TotalsOf(rows)
  {
    var sorted := SortBy(rows, RowBefore);
    assert |sorted| == |multiset(sorted)| == |multiset(rows)| == |rows|;
    ColumnsOfSortBy(rows);
  }

  lemma {:induction false} ColumnsOfSortBy(s: seq<SummaryRow>)
    ensures Total(InvestedColumn(SortBy(s, RowBefore))) == Total(InvestedColumn(s))
    ensures Total(CurrentColumn(SortBy(s, RowBefore))) == Total(CurrentColumn(s))
  {
    if s != [] {
      var n := |s| - 1;
      var init, x := s[..n], s[n];
      var sorted := SortBy(init, RowBefore);
      assert SortBy(s, RowBefore) == Insert(x, sorted, RowBefore);
      ColumnsOfSortBy(init);
      ColumnsOfInsert(x, sorted);
      assert init + [x] == s;
      ColumnsAppend(init, [x]);
      assert Total(InvestedColumn([x])) == x.investedValue;
      assert Total(CurrentColumn([x])) == x.currentValue;
    }
  }

  lemma {:induction false} ColumnsOfInsert(x: SummaryRow, s: seq<SummaryRow>)
    ensures Total(InvestedColumn(Insert(x, s, RowBefore))) == x.investedValue + Total(InvestedColumn(s))
    ensures Total(CurrentColumn(Insert(x, s, RowBefore))) == x.currentValue + Total(CurrentColumn(s))
  {
    if s != [] && RowBefore(s[0], x) {
      ColumnsOfInsert(x, s[1..]);
    }
  }

  lemma {:induction false} ColumnsAppend(a: seq<SummaryRow>, b: seq<SummaryRow>)
    ensures Total(InvestedColumn(a + b)) == Total(InvestedColumn(a)) + Total(InvestedColumn(b))
    ensures Total(CurrentColumn(a + b)) == Total(CurrentColumn(a)) + Total(CurrentColumn(b))
  {
    if a == [] {
      assert a + b == b;
    } else {
      assert (a + b)[1..] == a[1..] + b;
      ColumnsAppend(a[1..], b);
    }
  }

  /** The rows are ordered by `pctChangeLastBuy` descending, and rows with
      the same one by `pctChangeLastSell` ascending. */
  lemma SummaryOrder(accounts: seq<Account>, ts: seq<Transaction>, prices: map<Code, real>, includeSent: bool, i: nat, j: nat)
    requires forall a :: a in accounts ==> a.code in prices
    requires Summary(accounts, ts, prices, includeSent).Success?
    requires var rows := Summary(accounts, ts, prices, includeSent).value.rows; i < j < |rows|
    ensures var rows := Summary(accounts, ts, prices, includeSent).value.rows;
      var a, b := rows[i], rows[j];
      SignalValue(a.pctChangeLastBuy) >= SignalValue(b.pctChangeLastBuy) &&
      (SignalValue(a.pctChangeLastBuy) == SignalValue(b.pctChangeLastBuy) ==>
         SignalValue(a.pctChangeLastSell) <= SignalValue(b.pctChangeLastSell))
  {
    SummaryRows(accounts, ts, prices, includeSent);
  }
}
