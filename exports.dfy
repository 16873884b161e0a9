/** The objects handed to `saveCsv`: one per stored transaction
    (index.js:180-194) and one per summary row plus the totals row
    (index.js:289-291). Their keys are the constructors of `TxColumn` and
    `RowColumn`, whose names are the objects' property names. */
module Exports {
  import opened Wrappers
  import opened Ledger
  import opened Valuation
  import opened Csv

  // ---------------------------------------------------------- transactions

  datatype TxColumn = TxId | TxType | TxAmount | TxCode | TxUsd | TxPrice | TxFee | TxDate

  function TxColumnName(c: TxColumn): string {
    match c
    case TxId => "id"
    case TxType => "type"
    case TxAmount => "amount"
    case TxCode => "code"
    case TxUsd => "usd"
    case TxPrice => "price"
    case TxFee => "fee"
    case TxDate => "date"
  }

  function TransactionKeys(): seq<TxColumn> {
    [TxId, TxType, TxAmount, TxCode, TxUsd, TxPrice, TxFee, TxDate]
  }

  /** The exported object of a transaction (index.js:183-192). */
  function TransactionRecord(t: Transaction): Record<TxColumn> {
    Record(TransactionKeys(), map[
      TxId := Text(t.id), TxType := Text(t.kind), TxAmount := Number(t.amount),
      TxCode := Text(t.code), TxUsd := Number(t.usd), TxPrice := Number(t.price),
      TxFee := Number(t.fee), TxDate := Text(DisplayDate(t.date.iso))])
  }

  function TransactionRecords(ts: seq<Transaction>): (r: seq<Record<TxColumn>>)
    ensures |r| == |ts| && forall i :: 0 <= i < |ts| ==> r[i] == TransactionRecord(ts[i])
  {
    if ts == [] then [] else TransactionRecords(ts[..|ts| - 1]) + [TransactionRecord(ts[|ts| - 1])]
  }

  /** The transactions file; none is written when there is no transaction. */
  function TransactionsCsv(ts: seq<Transaction>, fmt: real -> string): (r: Option<string>)
    ensures r.None? <==> ts == []
  {
    CsvText(TransactionRecords(ts), TxColumnName, fmt)
  }

  /** The fields of a transaction's line, in column order. */
  lemma TransactionCells(t: Transaction, fmt: real -> string)
    ensures Cells(TransactionKeys(), TransactionRecord(t), fmt) ==
      [t.id, t.kind, fmt(t.amount), t.code, fmt(t.usd), fmt(t.price), fmt(t.fee), DisplayDate(t.date.iso)]
  {
    var cs := Cells(TransactionKeys(), TransactionRecord(t), fmt);
    var expected := [t.id, t.kind, fmt(t.amount), t.code, fmt(t.usd), fmt(t.price), fmt(t.fee), DisplayDate(t.date.iso)];
    assert cs[0] == expected[0] && cs[1] == expected[1] && cs[2] == expected[2] && cs[3] == expected[3];
    assert cs[4] == expected[4] && cs[5] == expected[5] && cs[6] == expected[6] && cs[7] == expected[7];
  }

  /** No field of any transaction's line holds a comma or a newline. */
  predicate PlainTransactions(ts: seq<Transaction>, fmt: real -> string) {
    forall i :: 0 <= i < |ts| ==>
      var cs := [ts[i].id, ts[i].kind, fmt(ts[i].amount), ts[i].code, fmt(ts[i].usd),
                 fmt(ts[i].price), fmt(ts[i].fee), DisplayDate(ts[i].date.iso)];
      Plain(cs, ',') && Plain(cs, '\n')
  }

  /** Reading the transactions file back gives the header, then each
      stored transaction in stored order with its date as shown, as long as
      no field holds a comma or a newline. */
  lemma TransactionsCsvReadsBack(ts: seq<Transaction>, fmt: real -> string)
    requires ts != [] && PlainTransactions(ts, fmt)
    ensures var lines := Split(TransactionsCsv(ts, fmt).value, '\n');
      |lines| == |ts| + 1 &&
      Split(lines[0], ',') == ["id", "type", "amount", "code", "usd", "price", "fee", "date"] &&
      forall i :: 0 <= i < |ts| ==>
        Split(lines[i + 1], ',') ==
          [ts[i].id, ts[i].kind, fmt(ts[i].amount), ts[i].code, fmt(ts[i].usd),
           fmt(ts[i].price), fmt(ts[i].fee), DisplayDate(ts[i].date.iso)]
  {
    var rows := TransactionRecords(ts);
    forall i | 0 <= i < |ts| ensures
      Cells(TransactionKeys(), rows[i], fmt) ==
        [ts[i].id, ts[i].kind, fmt(ts[i].amount), ts[i].code, fmt(ts[i].usd),
         fmt(ts[i].price), fmt(ts[i].fee), DisplayDate(ts[i].date.iso)]
    {
      TransactionCells(ts[i], fmt);
    }
    assert rows[0].keys == TransactionKeys();
    TransactionHeader();
    CsvReadsBack(rows, TxColumnName, fmt);
  }

  lemma TransactionHeader()
    ensures Names(TransactionKeys(), TxColumnName) == ["id", "type", "amount", "code", "usd", "price", "fee", "date"]
    ensures Plain(Names(TransactionKeys(), TxColumnName), ',') && Plain(Names(TransactionKeys(), TxColumnName), '\n')
  {
    var names := Names(TransactionKeys(), TxColumnName);
    assert names == ["id", "type", "amount", "code", "usd", "price", "fee", "date"];
    forall i | 0 <= i < |names| ensures ',' !in names[i] && '\n' !in names[i] {
      assert names[i] in names;
    }
  }

  // ---------------------------------------------------------------- summary

  datatype RowColumn =
    | RowName | RowCode | AvgInvestPrice | CurrentPrice | LastBuyPrice | PctChangeLastBuy
    | LastSellPrice | PctChangeLastSell | RowAmount | CurrentValue | InvestedValue
    | ValueDifference | PctChangeValue | LastBuyDate | LastSellDate

  function RowColumnName(c: RowColumn): string {
    match c
    case RowName => "name"
    case RowCode => "code"
    case AvgInvestPrice => "avgInvestPrice"
    case CurrentPrice => "currentPrice"
    case LastBuyPrice => "lastBuyPrice"
    case PctChangeLastBuy => "pctChangeLastBuy"
    case LastSellPrice => "lastSellPrice"
    case PctChangeLastSell => "pctChangeLastSell"
    case RowAmount => "amount"
    case CurrentValue => "currentValue"
    case InvestedValue => "investedValue"
    case ValueDifference => "valueDifference"
    case PctChangeValue => "pctChangeValue"
    case LastBuyDate => "lastBuyDate"
    case LastSellDate => "lastSellDate"
  }

  function SummaryKeys(): seq<RowColumn> {
    [RowName, RowCode, AvgInvestPrice, CurrentPrice, LastBuyPrice, PctChangeLastBuy,
     LastSellPrice, PctChangeLastSell, RowAmount, CurrentValue, InvestedValue,
     ValueDifference, PctChangeValue, LastBuyDate, LastSellDate]
  }

  function TotalsKeys(): seq<RowColumn> {
    [CurrentValue, InvestedValue, ValueDifference, PctChangeValue]
  }

  /** A JavaScript number: the non-finite ones are written as text. */
  function NumValue(n: Num): Value {
    match n
    case Finite(x) => Number(x)
    case PositiveInfinity => Text("Infinity")
    case NegativeInfinity => Text("-Infinity")
    case NaN => Text("NaN")
  }

  /** `lastBuy?.price`: `undefined` when there is no such transaction. */
  function PriceValue(p: Option<real>): Value {
    if p.Some? then Number(p.value) else Missing
  }

  function SignalCell(s: Signal): Value {
    match s
    case Blank => Text("")
    case Pct(v) => Number(v)
  }

  /** `lastBuy?.date ?? 0`: the ISO text, or the number 0. */
  function DateValue(d: Option<Instant>): Value {
    if d.Some? then Text(d.value.iso) else Number(0.0)
  }

  function SummaryRecord(row: SummaryRow): Record<RowColumn> {
    Record(SummaryKeys(), map[
      RowName := Text(row.name), RowCode := Text(row.code),
      AvgInvestPrice := NumValue(row.avgInvestPrice), CurrentPrice := Number(row.currentPrice),
      LastBuyPrice := PriceValue(row.lastBuyPrice), PctChangeLastBuy := SignalCell(row.pctChangeLastBuy),
      LastSellPrice := PriceValue(row.lastSellPrice), PctChangeLastSell := SignalCell(row.pctChangeLastSell),
      RowAmount := Number(row.amount), CurrentValue := Number(row.currentValue),
      InvestedValue := Number(row.investedValue), ValueDifference := Number(row.valueDifference),
      PctChangeValue := NumValue(row.pctChangeValue),
      LastBuyDate := DateValue(row.lastBuyDate), LastSellDate := DateValue(row.lastSellDate)])
  }

  function TotalsRecord(t: TotalsRow): Record<RowColumn> {
    Record(TotalsKeys(), map[
      CurrentValue := Number(t.currentValue), InvestedValue := Number(t.investedValue),
      ValueDifference := Number(t.valueDifference), PctChangeValue := NumValue(t.pctChangeValue)])
  }

  function SummaryRecords(rows: seq<SummaryRow>): (r: seq<Record<RowColumn>>)
    ensures |r| == |rows| && forall i :: 0 <= i < |rows| ==> r[i] == SummaryRecord(rows[i])
  {
    if rows == [] then [] else SummaryRecords(rows[..|rows| - 1]) + [SummaryRecord(rows[|rows| - 1])]
  }

  /** The summary file: the account rows, then the totals row. */
  function SummaryCsv(report: Report, fmt: real -> string): (r: Option<string>)
    ensures r.Some?
  {
    CsvText(SummaryRecords(report.rows) + [TotalsRecord(report.totals)], RowColumnName, fmt)
  }

  /** The header of the summary file comes from its first object: the
      account columns when there is an account row. The totals row has
      only four of them, so its line leaves every other column empty. */
  lemma SummaryTotalsLine(report: Report, fmt: real -> string)
    requires report.rows != []
    ensures var records := SummaryRecords(report.rows) + [TotalsRecord(report.totals)];
      records[0].keys == SummaryKeys() &&
      Cells(SummaryKeys(), records[|records| - 1], fmt) ==
        ["", "", "", "", "", "", "", "", "",
         fmt(report.totals.currentValue), fmt(report.totals.investedValue),
         fmt(report.totals.valueDifference), Render(NumValue(report.totals.pctChangeValue), fmt), "", ""]
  {
    var records := SummaryRecords(report.rows) + [TotalsRecord(report.totals)];
    assert records[|records| - 1] == TotalsRecord(report.totals);
  }
}
