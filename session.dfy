/** One run of the program (index.js:5, 122-215, 237-292 and 307-315): the
    module-level `accounts`, `transactions` and `prices`, the files it
    reads and writes, and the steps that update them in turn. */
module Session {
  import opened Wrappers
  import opened Ledger
  import opened Paging
  import opened Sync
  import opened Valuation
  import opened Exports
  import opened Sorting

  /** What is on disk: the saved JSON lists (absent when the file is
      missing or unreadable, as `loadJson` returns `undefined`), and the
      CSV files written, by name. */
  datatype Store = Store(
    accounts: Option<seq<Account>>,
    transactions: Option<seq<Transaction>>,
    csv: map<string, string>)

  /** `saveCsv` (index.js:50-62): the file is written only when there is
      a row. */
  function SaveCsv(store: Store, name: string, text: Option<string>): (r: Store)
    ensures r.accounts == store.accounts && r.transactions == store.transactions
    ensures text.None? ==> r == store
    ensures text.Some? ==> r.csv == store.csv[name := text.value]
  {
    if text.Some? then store.(csv := store.csv[name := text.value]) else store
  }

  /** What is on disk after the first three steps of `run`: the synced
      accounts saved when they were fetched, the transactions saved and
      their file written when they were fetched, and the pruned accounts
      saved over them when some account had no transaction. */
  function Loaded(disk: Store, synced: seq<Account>, ts: seq<Transaction>, kept: seq<Account>,
                  refreshAccounts: bool, refreshTransactions: bool, fmt: real -> string): (r: Store)
    ensures r.accounts ==
      if |kept| < |synced| then Some(kept)
      else if disk.accounts.None? || refreshAccounts then Some(synced)
      else disk.accounts
    ensures r.transactions ==
      if disk.transactions.None? || refreshTransactions then Some(ts) else disk.transactions
    ensures r.csv ==
      if (disk.transactions.None? || refreshTransactions) && ts != []
      then disk.csv["transactions" := TransactionsCsv(ts, fmt).value]
      else disk.csv
  {
    var afterAccounts := if disk.accounts.None? || refreshAccounts then disk.(accounts := Some(synced)) else disk;
    var afterTransactions :=
      if disk.transactions.None? || refreshTransactions
      then SaveCsv(afterAccounts.(transactions := Some(ts)), "transactions", TransactionsCsv(ts, fmt))
      else afterAccounts;
    if |kept| < |synced| then afterTransactions.(accounts := Some(kept)) else afterTransactions
  }

  class Insight {
    var store: Store
    var accounts: seq<Account>
    var transactions: seq<Transaction>
    var prices: map<Code, real>

    constructor (disk: Store)
      ensures store == disk && accounts == [] && transactions == [] && prices == map[]
    {
      store := disk;
      accounts := [];
      transactions := [];
      prices := map[];
    }

    /** `getAccounts` (index.js:122-139): loads the saved accounts and,
        when there are none or the "a" flag asks for a refresh, appends
        the new ones from the listing and saves the list. */
    method GetAccounts(api: Api<Currency>, refresh: bool)
      modifies this
      requires Linked(api(AccountsPath()))
      ensures accounts == SyncAccounts(old(store.accounts), api, refresh)
      ensures old(store.accounts).None? || refresh ==> store == old(store).(accounts := Some(accounts))
      ensures old(store.accounts).Some? && !refresh ==> store == old(store)
      ensures store.transactions == old(store.transactions)
      ensures transactions == old(transactions) && prices == old(prices)
    {
      var loaded := store.accounts;
      accounts := LoadAccounts(api, loaded, refresh);
      if loaded.None? || refresh {
        store := store.(accounts := Some(accounts));
      }
    }

    /** The accounts of index.js:124-136: the stored list, refreshed from
        the listing when there is none or a refresh is asked for. */
    static method LoadAccounts(api: Api<Currency>, loaded: Option<seq<Account>>, refresh: bool)
      returns (accounts: seq<Account>)
      requires Linked(api(AccountsPath()))
      ensures accounts == SyncAccounts(loaded, api, refresh)
    {
      if loaded.None? || refresh {
        var saved := loaded.GetOr([]);
        var found := GetItems(api, "accounts", AccountIds(saved), None);
        accounts := saved + ToAccounts(found);
      } else {
        accounts := loaded.value;
      }
    }

    /** `getTransactions` (index.js:141-196): loads the saved
        transactions and, when there are none or the "t" flag asks for a
        refresh, fetches each account's new ones in account order, sorts
        the list newest first, saves it and writes the transactions file. */
    method GetTransactions(api: Api<TxBody>, refresh: bool, fmt: real -> string)
      modifies this
      requires TransactionListingsOk(api, accounts)
      ensures accounts == old(accounts) && prices == old(prices)
      ensures transactions == SyncTransactions(old(store.transactions), accounts, api, refresh)
      ensures old(store.transactions).None? || refresh ==>
        store == SaveCsv(old(store).(transactions := Some(transactions)), "transactions", TransactionsCsv(transactions, fmt))
      ensures old(store.transactions).Some? && !refresh ==> store == old(store)
    {
      var loaded := store.transactions;
      if loaded.None? || refresh {
        var ts := FetchAll(api, accounts, loaded.GetOr([]));
        transactions := SortBy(ts, NewerFirst);
        SaveTransactions(fmt);
      } else {
        transactions := loaded.value;
      }
    }

    /** `saveJson` and `saveCsv` of the transactions (index.js:179-194). */
    method SaveTransactions(fmt: real -> string)
      modifies this
      ensures accounts == old(accounts) && transactions == old(transactions) && prices == old(prices)
      ensures store == SaveCsv(old(store).(transactions := Some(transactions)), "transactions", TransactionsCsv(transactions, fmt))
    {
      store := store.(transactions := Some(transactions));
      store := SaveCsv(store, "transactions", TransactionsCsv(transactions, fmt));
    }

    /** The loop of index.js:145-176: each account's new transactions, in
        account order, deduplicated against everything gathered so far. */
    static method FetchAll(api: Api<TxBody>, accounts: seq<Account>, saved: seq<Transaction>)
      returns (ts: seq<Transaction>)
      requires TransactionListingsOk(api, accounts)
      ensures ts == Accumulate(accounts, api, saved)
    {
      ts := saved;
      for i := 0 to |accounts|
        invariant TransactionListingsOk(api, accounts[i..])
        invariant Accumulate(accounts[i..], api, ts) == Accumulate(accounts, api, saved)
      {
        var account := accounts[i];
        var pages := api(TransactionsPath(account.id));
        assert account in accounts[i..];
        var found := GetItems(api, "transactions", TransactionIds(ts), Some(Context("accounts", account.id)));
        assert pages[0..] == pages;
        assert accounts[i..][1..] == accounts[i + 1..];
        ts := ts + ToTransactions(found);
      }
      assert accounts[|accounts|..] == [];
    }

    /** `filterAccountsWithoutTransactions` (index.js:198-206): drops the
        accounts no transaction is in, and saves the list only if it
        shrank. */
    method FilterAccountsWithoutTransactions()
      modifies this
      ensures accounts == WithTransactions(old(accounts), transactions)
      ensures |accounts| < |old(accounts)| ==> store == old(store).(accounts := Some(accounts))
      ensures |accounts| == |old(accounts)| ==> store == old(store)
      ensures transactions == old(transactions) && prices == old(prices)
    {
      var total := |accounts|;
      accounts := WithTransactions(accounts, transactions);
      if |accounts| < total {
        store := store.(accounts := Some(accounts));
      }
    }

    /** `getPrices` (index.js:208-215): the spot price of each account's
        currency, asked of the API one account at a time; `spot` is what
        the API answers. */
    method GetPrices(spot: Code -> real)
      modifies this
      ensures prices.Keys == set a | a in accounts :: a.code
      ensures forall a :: a in accounts ==> a.code in prices
      ensures forall c :: c in prices ==> prices[c] == spot(c)
      ensures accounts == old(accounts) && transactions == old(transactions) && store == old(store)
    {
      var accs := accounts;
      var found: map<Code, real> := map[];
      for i := 0 to |accs|
        invariant found.Keys == set a | a in accs[..i] :: a.code
        invariant forall c :: c in found ==> found[c] == spot(c)
      {
        assert accs[..i + 1] == accs[..i] + [accs[i]];
        found := found[accs[i].code := spot(accs[i].code)];
      }
      assert accs[..|accs|] == accs;
      prices := found;
    }

    /** The loop of index.js:246-249: the amount held and the cost basis of
        an account's transactions. */
    static method AddUp(txns: seq<Transaction>) returns (amount: real, investedValue: real)
      ensures amount == Held(txns) && investedValue == Invested(txns)
    {
      amount := 0.0;
      investedValue := 0.0;
      for i := 0 to |txns|
        invariant amount == Held(txns[..i])
        invariant investedValue == Invested(txns[..i])
      {
        var t := txns[i];
        amount := amount + t.amount;
        investedValue := investedValue + (if !IsReward(t) then t.usd else 0.0);
        assert txns[..i + 1] == txns[..i] + [t];
        AppendOne(txns[..i], t);
      }
      assert txns[..|txns|] == txns;
    }

    /** The body of the loop of index.js:240-288: one account's row. */
    static method BuildRow(account: Account, transactions: seq<Transaction>, prices: map<Code, real>, includeSent: bool)
      returns (row: SummaryRow)
      requires account.code in prices
      ensures row == AccountRow(account, transactions, prices, includeSent)
    {
      var txns := Selected(transactions, account.code, includeSent);
      var amount, investedValue := AddUp(txns);
      row := MakeRow(account, amount, investedValue, txns, prices[account.code]);
    }

    /** The loop of index.js:240-288: one row per account, in account
        order. */
    static method BuildRows(accounts: seq<Account>, transactions: seq<Transaction>, prices: map<Code, real>, includeSent: bool)
      returns (rows: seq<SummaryRow>)
      requires forall a :: a in accounts ==> a.code in prices
      ensures rows == Rows(accounts, transactions, prices, includeSent)
    {
      rows := [];
      for k := 0 to |accounts|
        invariant forall a :: a in accounts[..k] ==> a.code in prices
        invariant rows == Rows(accounts[..k], transactions, prices, includeSent)
      {
        var row := BuildRow(accounts[k], transactions, prices, includeSent);
        RowsStep(accounts, k, transactions, prices, includeSent);
        rows := rows + [row];
      }
      assert accounts[..|accounts|] == accounts;
    }

    /** The report `getSummary` computes (index.js:239-290): the rows, then
        sorted, then the totals. */
    method BuildSummary(includeSent: bool) returns (r: Result<Report, SummaryError>)
      requires forall a :: a in accounts ==> a.code in prices
      ensures r == Summary(accounts, transactions, prices, includeSent)
    {
      var rows := BuildRows(accounts, transactions, prices, includeSent);
      r := Finish(rows);
    }

    /** `getSummary` (index.js:237-292): computes the report and writes the
        summary file; with no account the totals step fails and nothing is
        written. */
    method GetSummary(includeSent: bool, fmt: real -> string) returns (r: Result<Report, SummaryError>)
      modifies this
      requires forall a :: a in accounts ==> a.code in prices
      ensures accounts == old(accounts) && transactions == old(transactions) && prices == old(prices)
      ensures r == Summary(accounts, transactions, prices, includeSent)
      ensures r.Success? ==> store == SaveCsv(old(store), "summary", SummaryCsv(r.value, fmt))
      ensures r.Failure? ==> store == old(store)
    {
      r := BuildSummary(includeSent);
      if r.Success? {
        SaveSummary(r.value, fmt);
      }
    }

    /** `saveCsv("summary", rows)` (index.js:290-291): the sorted rows and
        the totals row. */
    method SaveSummary(report: Report, fmt: real -> string)
      modifies this
      ensures accounts == old(accounts) && transactions == old(transactions) && prices == old(prices)
      ensures store == SaveCsv(old(store), "summary", SummaryCsv(report, fmt))
    {
      store := SaveCsv(store, "summary", SummaryCsv(report, fmt));
    }

    /** `run` (index.js:307-315): the steps in order, with the flags read
        from the command line. */
    method Run(accountsApi: Api<Currency>, transactionsApi: Api<TxBody>, spot: Code -> real,
               argv: seq<string>, fmt: real -> string)
      returns (r: Result<Report, SummaryError>)
      modifies this
      requires Linked(accountsApi(AccountsPath()))
      requires TransactionListingsOk(transactionsApi, SyncAccounts(store.accounts, accountsApi, "a" in argv))
      ensures var synced := SyncAccounts(old(store.accounts), accountsApi, "a" in argv);
        transactions == SyncTransactions(old(store.transactions), synced, transactionsApi, "t" in argv) &&
        accounts == WithTransactions(synced, transactions)
      ensures prices.Keys == set a | a in accounts :: a.code
      ensures forall a :: a in accounts ==> a.code in prices && prices[a.code] == spot(a.code)
      ensures r == Summary(accounts, transactions, prices, "s" in argv)
      ensures var synced := SyncAccounts(old(store.accounts), accountsApi, "a" in argv);
        var disk := Loaded(old(store), synced, transactions, accounts, "a" in argv, "t" in argv, fmt);
        (r.Success? ==> store == SaveCsv(disk, "summary", SummaryCsv(r.value, fmt))) &&
        (r.Failure? ==> store == disk)
    {
      Load(accountsApi, transactionsApi, "a" in argv, "t" in argv, fmt);
      GetPrices(spot);
      r := GetSummary("s" in argv, fmt);
    }

    /** The first three steps of `run`: the accounts, their transactions,
        and the accounts that have some. */
    method Load(accountsApi: Api<Currency>, transactionsApi: Api<TxBody>, refreshAccounts: bool,
                refreshTransactions: bool, fmt: real -> string)
      modifies this
      requires Linked(accountsApi(AccountsPath()))
      requires TransactionListingsOk(transactionsApi, SyncAccounts(store.accounts, accountsApi, refreshAccounts))
      ensures var synced := SyncAccounts(old(store.accounts), accountsApi, refreshAccounts);
        transactions == SyncTransactions(old(store.transactions), synced, transactionsApi, refreshTransactions) &&
        accounts == WithTransactions(synced, transactions) &&
        store == Loaded(old(store), synced, transactions, accounts, refreshAccounts, refreshTransactions, fmt)
      ensures prices == old(prices)
    {
      GetAccounts(accountsApi, refreshAccounts);
      ghost var synced := accounts;
      GetTransactions(transactionsApi, refreshTransactions, fmt);
      assert accounts == synced;
      FilterAccountsWithoutTransactions();
    }
  }
}
