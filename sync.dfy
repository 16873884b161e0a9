/** What `getAccounts`, `getTransactions` and
    `filterAccountsWithoutTransactions` compute (index.js:122-206), as
    functions of what was stored and what the remote API lists. The class
    in module `Session` performs these steps on its state. */
module Sync {
  import opened Wrappers
  import opened Ledger
  import opened Paging
  import opened Sorting

  /** "/v2/accounts" */
  function AccountsPath(): string {
    FirstPath("accounts", None)
  }

  /** "/v2/accounts/{id}/transactions" */
  function TransactionsPath(accountId: Id): string {
    FirstPath("transactions", Some(Context("accounts", accountId)))
  }

  /** A listing of transactions that `getTransactions` can store: linked,
      and no amount is zero. */
  predicate TransactionListingOk(pages: seq<Page<TxBody>>) {
    Linked(pages) && forall t :: t in Flatten(pages) ==> Priceable(t)
  }

  predicate TransactionListingsOk(api: Api<TxBody>, accounts: seq<Account>) {
    forall a :: a in accounts ==> TransactionListingOk(api(TransactionsPath(a.id)))
  }

  // ---------------------------------------------------------------- accounts

  /** The accounts after `getAccounts` (index.js:122-139): when nothing is
      stored or a refresh is asked for (the "a" flag), the stored list
      refreshed from the listing; otherwise the stored list as it is. */
  function SyncAccounts(stored: Option<seq<Account>>, api: Api<Currency>, refresh: bool): (r: seq<Account>)
    requires Linked(api(AccountsPath()))
    ensures stored.Some? && !refresh ==> r == stored.value
    ensures var saved := stored.GetOr([]); |saved| <= |r| && r[..|saved|] == saved
  {
    if stored.None? || refresh then Refreshed(stored.GetOr([]), api) else stored.value
  }

  /** The fetching branch of `getAccounts` (index.js:127-136): the saved
      list is kept as it is, and whatever follows it is an account whose id
      the saved list lacks. */
  function Refreshed(saved: seq<Account>, api: Api<Currency>): (r: seq<Account>)
    requires Linked(api(AccountsPath()))
    ensures |saved| <= |r| && r[..|saved|] == saved
    ensures forall j :: |saved| <= j < |r| ==> r[j].id !in AccountIds(saved)
  {
    var found := Walk(api(AccountsPath()), 0, AccountIds(saved));
    AppendNewAccounts(saved, found);
    saved + ToAccounts(found)
  }

  lemma AppendNewAccounts(saved: seq<Account>, found: seq<Raw<Currency>>)
    requires forall x :: x in found ==> x.id !in AccountIds(saved)
    ensures var r := saved + ToAccounts(found);
      r[..|saved|] == saved &&
      forall j :: |saved| <= j < |r| ==> r[j].id !in AccountIds(saved)
  {
    var r := saved + ToAccounts(found);
    forall j | |saved| <= j < |r| ensures r[j].id !in AccountIds(saved) {
      assert r[j] == ToAccount(found[j - |saved|]);
      assert found[j - |saved|] in found;
    }
  }

  /** What a sync appends to the saved accounts is an account whose id the
      saved list lacks. */
  lemma SyncAccountsAppendsNew(stored: Option<seq<Account>>, api: Api<Currency>, refresh: bool)
    requires Linked(api(AccountsPath()))
    ensures var saved := stored.GetOr([]); var r := SyncAccounts(stored, api, refresh);
      forall j :: |saved| <= j < |r| ==> r[j].id !in AccountIds(saved)
  {
    if stored.None? || refresh {
      var r := Refreshed(stored.GetOr([]), api);
    }
  }

  /** Refreshing a refreshed list finds nothing new: everything the
      listing has is now known. */
  lemma {:induction false} RefreshedAgain(saved: seq<Account>, api: Api<Currency>)
    requires Linked(api(AccountsPath()))
    ensures Refreshed(Refreshed(saved, api), api) == Refreshed(saved, api)
  {
    var once := Refreshed(saved, api);
    var pages := api(AccountsPath());
    var found := Walk(pages, 0, AccountIds(saved));
    assert once == saved + ToAccounts(found);
    KnownAfterAppend(saved, found);
    WalkAgainFindsNothing(pages, 0, AccountIds(saved), AccountIds(once));
    assert once + ToAccounts([]) == once;
  }

  /** Syncing again, with the stored list that a fetching sync produced,
      changes nothing, whether or not a refresh is asked for. */
  lemma SyncAccountsIdempotent(stored: Option<seq<Account>>, api: Api<Currency>, refresh: bool, refresh': bool)
    requires Linked(api(AccountsPath()))
    requires stored.None? || refresh
    ensures var once := SyncAccounts(stored, api, refresh);
      SyncAccounts(Some(once), api, refresh') == once
  {
    RefreshedAgain(stored.GetOr([]), api);
  }

  lemma {:induction false} KnownAfterAppend(saved: seq<Account>, found: seq<Raw<Currency>>)
    ensures var known' := AccountIds(saved + ToAccounts(found));
      (forall id :: id in AccountIds(saved) ==> id in known') &&
      (forall x :: x in found ==> x.id in known')
  {
    var all := saved + ToAccounts(found);
    var known' := AccountIds(all);
    forall id | id in AccountIds(saved) ensures id in known' {
      var i :| 0 <= i < |saved| && AccountIds(saved)[i] == id;
      assert known'[i] == all[i].id;
    }
    forall x | x in found ensures x.id in known' {
      var i :| 0 <= i < |found| && found[i] == x;
      assert all[|saved| + i] == ToAccount(x);
      assert known'[|saved| + i] == x.id;
    }
  }

  // ------------------------------------------------------------ transactions

  /** The comparator of index.js:177-178, `time(b.date) - time(a.date)`. */
  function CompareByDate(a: Transaction, b: Transaction): int {
    b.date.time - a.date.time
  }

  /** `a` may stand before `b` in the stored order: newest first. */
  predicate NewerFirst(a: Transaction, b: Transaction) {
    CompareByDate(a, b) <= 0
  }

  lemma {:induction false} NewerFirstIsTotalPreorder()
    ensures TotalPreorder(NewerFirst)
  {
  }

  /** The transactions of one account that are not yet stored, mapped to
      the stored shape (index.js:151-175). */
  function NewTransactions(api: Api<TxBody>, account: Account, ts: seq<Transaction>): (r: seq<Transaction>)
    requires TransactionListingOk(api(TransactionsPath(account.id)))
    ensures forall t :: t in r ==> t.id !in TransactionIds(ts)
  {
    var pages := api(TransactionsPath(account.id));
    var found := Walk(pages, 0, TransactionIds(ts));
    assert pages[0..] == pages;
    var r := ToTransactions(found);
    assert forall j :: 0 <= j < |r| ==> r[j].id == found[j].id && found[j] in found;
    r
  }

  /** The loop of index.js:145-176: account by account, the new
      transactions are appended, each account's fetch deduplicating against
      everything accumulated so far. */
  function Accumulate(accounts: seq<Account>, api: Api<TxBody>, ts: seq<Transaction>): (r: seq<Transaction>)
    requires TransactionListingsOk(api, accounts)
    ensures |ts| <= |r| && r[..|ts|] == ts
    ensures forall j :: |ts| <= j < |r| ==> r[j].id !in TransactionIds(ts)
    decreases |accounts|
  {
    if accounts == [] then ts
    else
      var batch := NewTransactions(api, accounts[0], ts);
      var ts' := ts + batch;
      var r := Accumulate(accounts[1..], api, ts');
      assert r[..|ts|] == ts'[..|ts|];
      forall j | |ts| <= j < |r| ensures r[j].id !in TransactionIds(ts) {
        if j < |ts'| {
          assert r[j] == batch[j - |ts|] && batch[j - |ts|] in batch;
        } else {
          IdsOfPrefix(ts, batch);
        }
      }
      r
  }

  lemma {:induction false} IdsOfPrefix(ts: seq<Transaction>, more: seq<Transaction>)
    ensures forall id :: id in TransactionIds(ts) ==> id in TransactionIds(ts + more)
  {
    forall id | id in TransactionIds(ts) ensures id in TransactionIds(ts + more) {
      var i :| 0 <= i < |ts| && TransactionIds(ts)[i] == id;
      assert TransactionIds(ts + more)[i] == id;
    }
  }

  /** No two transactions share an id. */
  predicate UniqueIds(ts: seq<Transaction>) {
    forall i, j :: 0 <= i < j < |ts| ==> ts[i].id != ts[j].id
  }

  /** An account listing without repeated ids yields a batch without
      repeated ids. */
  lemma NewTransactionsUnique(api: Api<TxBody>, account: Account, ts: seq<Transaction>)
    requires TransactionListingOk(api(TransactionsPath(account.id)))
    requires DistinctIds(Flatten(api(TransactionsPath(account.id))))
    ensures UniqueIds(NewTransactions(api, account, ts))
  {
    var pages := api(TransactionsPath(account.id));
    assert pages[0..] == pages;
    WalkDistinct(pages, 0, TransactionIds(ts));
  }

  /** The loop of index.js:145-176 never stores an id twice: the stored
      list starts without repeats, and no account's listing repeats an id,
      so neither does the list it builds. */
  lemma {:induction false} AccumulateUnique(accounts: seq<Account>, api: Api<TxBody>, ts: seq<Transaction>)
    requires TransactionListingsOk(api, accounts)
    requires forall a :: a in accounts ==> DistinctIds(Flatten(api(TransactionsPath(a.id))))
    requires UniqueIds(ts)
    ensures UniqueIds(Accumulate(accounts, api, ts))
    decreases |accounts|
  {
    if accounts != [] {
      var batch := NewTransactions(api, accounts[0], ts);
      var ts' := ts + batch;
      NewTransactionsUnique(api, accounts[0], ts);
      forall i, j | 0 <= i < j < |ts'| ensures ts'[i].id != ts'[j].id {
        if i < |ts| <= j {
          assert ts'[j] == batch[j - |ts|] && batch[j - |ts|] in batch;
          assert TransactionIds(ts)[i] == ts[i].id;
        } else if |ts| <= i {
          assert ts'[i] == batch[i - |ts|] && ts'[j] == batch[j - |ts|];
        }
      }
      AccumulateUnique(accounts[1..], api, ts');
    }
  }

  /** The transactions after `getTransactions` (index.js:141-196): when
      nothing is stored or a refresh is asked for (the "t" flag), the stored
      list with every account's new transactions added, re-sorted newest
      first; otherwise the stored list as it is. */
  function SyncTransactions(stored: Option<seq<Transaction>>, accounts: seq<Account>, api: Api<TxBody>, refresh: bool): (r: seq<Transaction>)
    requires TransactionListingsOk(api, accounts)
    ensures stored.Some? && !refresh ==> r == stored.value
    ensures stored.None? || refresh ==>
      var merged := Accumulate(accounts, api, stored.GetOr([]));
      SortedBy(r, NewerFirst) && multiset(r) == multiset(merged)
  {
    if stored.None? || refresh then
      NewerFirstIsTotalPreorder();
      SortByIsSorted(Accumulate(accounts, api, stored.GetOr([])), NewerFirst);
      SortBy(Accumulate(accounts, api, stored.GetOr([])), NewerFirst)
    else
      stored.value
  }

  /** Running the loop again over a list that holds everything the first
      run found adds nothing. */
  lemma {:induction false} AccumulateAgain(accounts: seq<Account>, api: Api<TxBody>, ts: seq<Transaction>, final: seq<Transaction>)
    requires TransactionListingsOk(api, accounts)
    requires forall t :: t in Accumulate(accounts, api, ts) ==> t.id in TransactionIds(final)
    ensures Accumulate(accounts, api, final) == final
    decreases |accounts|
  {
    if accounts != [] {
      var pages := api(TransactionsPath(accounts[0].id));
      var batch := NewTransactions(api, accounts[0], ts);
      var ts' := ts + batch;
      assert Accumulate(accounts, api, ts) == Accumulate(accounts[1..], api, ts');
      var found := Walk(pages, 0, TransactionIds(ts));
      assert pages[0..] == pages;
      KnownAfterBatch(ts, found, Accumulate(accounts[1..], api, ts'), final);
      WalkAgainFindsNothing(pages, 0, TransactionIds(ts), TransactionIds(final));
      assert NewTransactions(api, accounts[0], final) == [];
      assert final + [] == final;
      AccumulateAgain(accounts[1..], api, ts', final);
    }
  }

  /** Whatever a list that starts with `ts` and a batch of `found` ones
      holds, a list holding all its ids knows. */
  lemma {:induction false} KnownAfterBatch(ts: seq<Transaction>, found: seq<Raw<TxBody>>, all: seq<Transaction>, final: seq<Transaction>)
    requires forall x :: x in found ==> Priceable(x)
    requires var ts' := ts + ToTransactions(found); |ts'| <= |all| && all[..|ts'|] == ts'
    requires forall t :: t in all ==> t.id in TransactionIds(final)
    ensures forall id :: id in TransactionIds(ts) ==> id in TransactionIds(final)
    ensures forall x :: x in found ==> x.id in TransactionIds(final)
  {
    var ts' := ts + ToTransactions(found);
    forall id | id in TransactionIds(ts) ensures id in TransactionIds(final) {
      var i :| 0 <= i < |ts| && TransactionIds(ts)[i] == id;
      assert all[i] == ts'[i] == ts[i];
      assert all[i] in all;
    }
    forall x | x in found ensures x.id in TransactionIds(final) {
      var i :| 0 <= i < |found| && found[i] == x;
      assert all[|ts| + i] == ts'[|ts| + i] == ToTransaction(x);
      assert all[|ts| + i] in all;
    }
  }

  /** Syncing again, with the stored list that a fetching sync produced,
      changes nothing: no transaction is fetched twice, and the list is
      already in order. */
  lemma {:induction false} SyncTransactionsIdempotent(stored: Option<seq<Transaction>>, accounts: seq<Account>, api: Api<TxBody>, refresh: bool, refresh': bool)
    requires TransactionListingsOk(api, accounts)
    requires stored.None? || refresh
    ensures var once := SyncTransactions(stored, accounts, api, refresh);
      SyncTransactions(Some(once), accounts, api, refresh') == once
  {
    var once := SyncTransactions(stored, accounts, api, refresh);
    if refresh' {
      var merged := Accumulate(accounts, api, stored.GetOr([]));
      forall t | t in merged ensures t.id in TransactionIds(once) {
        assert t in multiset(once);
        var i :| 0 <= i < |once| && once[i] == t;
      }
      AccumulateAgain(accounts, api, stored.GetOr([]), once);
      SortBySortedIsIdentity(once, NewerFirst);
    }
  }

  // ----------------------------------------------------------------- pruning

  /** Some transaction is in the currency `code`. */
  predicate HasTransactions(code: Code, ts: seq<Transaction>) {
    exists t :: t in ts && t.code == code
  }

  /** The accounts `filterAccountsWithoutTransactions` keeps
      (index.js:200-202), in order; `WithTransactionsKeeps` says which. */
  function WithTransactions(accounts: seq<Account>, ts: seq<Transaction>): (r: seq<Account>)
    ensures |r| <= |accounts|
  {
    if accounts == [] then []
    else
      (if HasTransactions(accounts[0].code, ts) then [accounts[0]] else [])
        + WithTransactions(accounts[1..], ts)
  }

  /** The filter keeps exactly the accounts whose currency has a
      transaction, and the list shrinks exactly when some account has none. */
  lemma {:induction false} WithTransactionsKeeps(accounts: seq<Account>, ts: seq<Transaction>)
    ensures var r := WithTransactions(accounts, ts);
      (forall a :: a in r <==> a in accounts && HasTransactions(a.code, ts)) &&
      (|r| == |accounts| <==> forall a :: a in accounts ==> HasTransactions(a.code, ts))
  {
    if accounts != [] {
      WithTransactionsKeeps(accounts[1..], ts);
      assert accounts == [accounts[0]] + accounts[1..];
      var r := WithTransactions(accounts, ts);
      var rest := WithTransactions(accounts[1..], ts);
      if HasTransactions(accounts[0].code, ts) {
        assert r == [accounts[0]] + rest;
      } else {
        assert r == rest;
        assert |rest| <= |accounts[1..]| < |accounts|;
      }
    }
  }

  /** The filter keeps order: it distributes over concatenation. */
  lemma {:induction false} WithTransactionsAppend(a: seq<Account>, b: seq<Account>, ts: seq<Transaction>)
    ensures WithTransactions(a + b, ts) == WithTransactions(a, ts) + WithTransactions(b, ts)
  {
    if a != [] {
      assert (a + b)[1..] == a[1..] + b;
      WithTransactionsAppend(a[1..], b, ts);
    } else {
      assert a + b == b;
    }
  }

  /** Pruning twice is pruning once. */
  lemma {:induction false} WithTransactionsIdempotent(accounts: seq<Account>, ts: seq<Transaction>)
    ensures WithTransactions(WithTransactions(accounts, ts), ts) == WithTransactions(accounts, ts)
  {
    if accounts != [] {
      WithTransactionsIdempotent(accounts[1..], ts);
      var head := if HasTransactions(accounts[0].code, ts) then [accounts[0]] else [];
      WithTransactionsAppend(head, WithTransactions(accounts[1..], ts), ts);
      if head != [] {
        assert head[1..] == [];
      }
    }
  }
}
