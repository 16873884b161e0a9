/** The records of the exchange's ledger: what the remote API returns and
    the shapes the program keeps (index.js:128-135 and index.js:156-175).

    Quantities are `real`; the API's decimal strings and their coercion to
    numbers are not modelled. A timestamp is carried next to its ISO text:
    `time` is what `new Date(iso).getTime()` gives. */
module Ledger {

  type Id = string
  type Code = string

  /** An ISO-8601 instant and its epoch time. */
  datatype Instant = Instant(iso: string, time: int)

  /** Any record of the remote API: its identity and the rest of it. */
  datatype Raw<T> = Raw(id: Id, body: T)

  /** The `currency` object of a remote account. */
  datatype Currency = Currency(code: Code, name: string)

  /** A quantity of some currency (`amount` and `native_amount`). */
  datatype Money = Money(amount: real, currency: Code)

  /** A remote transaction without its id; `kind` is the API's `type`. */
  datatype TxBody = TxBody(kind: string, amount: Money, nativeAmount: Money, createdAt: Instant)

  /** A stored account. */
  datatype Account = Account(id: Id, code: Code, name: string)

  /** A stored transaction: `usd` is the native (USD) value, `fee` and
      `price` are derived when it is first stored. */
  datatype Transaction = Transaction(
    id: Id, kind: string, amount: real, code: Code,
    usd: real, price: real, fee: real, date: Instant)

  function AccountIds(s: seq<Account>): (r: seq<Id>)
    ensures |r| == |s| && forall i :: 0 <= i < |s| ==> r[i] == s[i].id
  {
    if s == [] then [] else AccountIds(s[..|s| - 1]) + [s[|s| - 1].id]
  }

  function TransactionIds(s: seq<Transaction>): (r: seq<Id>)
    ensures |r| == |s| && forall i :: 0 <= i < |s| ==> r[i] == s[i].id
  {
    if s == [] then [] else TransactionIds(s[..|s| - 1]) + [s[|s| - 1].id]
  }

  /** The stored account made from a remote one (index.js:129-135). */
  function ToAccount(a: Raw<Currency>): Account {
    Account(a.id, a.body.code, a.body.name)
  }

  function ToAccounts(s: seq<Raw<Currency>>): (r: seq<Account>)
    ensures |r| == |s| && forall i :: 0 <= i < |s| ==> r[i] == ToAccount(s[i])
  {
    if s == [] then [] else ToAccounts(s[..|s| - 1]) + [ToAccount(s[|s| - 1])]
  }

  /** The fee charged on a transaction (index.js:161-162): 1.5% of the USD
      value with a 3 USD minimum on a buy of anything but USD, nothing on
      every other transaction. */
  function Fee(kind: string, code: Code, usd: real): (fee: real)
    ensures kind == "buy" && code != "USD" ==>
      fee >= 3.0 && fee >= usd * 0.015 && (fee == 3.0 || fee == usd * 0.015)
    ensures !(kind == "buy" && code != "USD") ==> fee == 0.0
  {
    if kind == "buy" && code != "USD" then
      (if usd * 0.015 > 3.0 then usd * 0.015 else 3.0)
    else 0.0
  }

  /** The price per unit net of fee (index.js:163). The source does not
      guard a zero amount; it is a precondition here. */
  function UnitPrice(usd: real, fee: real, amount: real): (price: real)
    requires amount != 0.0
    ensures price * amount + fee == usd
  {
    (usd - fee) / amount
  }

  /** A remote transaction that can be stored: its amount is not zero. */
  predicate Priceable(t: Raw<TxBody>) {
    t.body.amount.amount != 0.0
  }

  /** The stored transaction made from a remote one (index.js:157-174). */
  function ToTransaction(t: Raw<TxBody>): (r: Transaction)
    requires Priceable(t)
    ensures r.id == t.id && r.kind == t.body.kind && r.date == t.body.createdAt
    ensures r.amount == t.body.amount.amount && r.code == t.body.amount.currency
    ensures r.usd == t.body.nativeAmount.amount
    ensures r.fee == Fee(t.body.kind, r.code, r.usd)
    ensures r.price * r.amount + r.fee == r.usd
  {
    var amount := t.body.amount.amount;
    var code := t.body.amount.currency;
    var usd := t.body.nativeAmount.amount;
    var fee := Fee(t.body.kind, code, usd);
    Transaction(t.id, t.body.kind, amount, code, usd, UnitPrice(usd, fee, amount), fee, t.body.createdAt)
  }

  function ToTransactions(s: seq<Raw<TxBody>>): (r: seq<Transaction>)
    requires forall t :: t in s ==> Priceable(t)
    ensures |r| == |s| && forall i :: 0 <= i < |s| ==> r[i] == ToTransaction(s[i])
  {
    if s == [] then [] else ToTransactions(s[..|s| - 1]) + [ToTransaction(s[|s| - 1])]
  }

  /** A BTC buy worth 1000 USD pays 15 USD; one worth 100 USD pays the
      3 USD minimum; a buy of USD or a sell pays none. */
  lemma FeeExamples()
    ensures Fee("buy", "BTC", 1000.0) == 15.0
    ensures Fee("buy", "BTC", 100.0) == 3.0
    ensures Fee("buy", "USD", 1000.0) == 0.0
    ensures Fee("sell", "BTC", 1000.0) == 0.0
  {
  }
}
