/**
 * The local store: the `accounts` and `balances` tables with their
 * auto-increment key generators, and one method per exported operation.
 */
module Store {
  import opened Wrappers
  import opened Records
  import opened Tables
  import opened Ordering
  import opened Aggregates

  /** The `accounts` rows an account update leaves: the supplied fields replaced, `updated_at` set. */
  function Merge(a: Account, u: AccountUpdate, now: Timestamp): Account
  {
    a.(name := u.name.GetOr(a.name),
       kind := u.kind.GetOr(a.kind),
       currency := u.currency.GetOr(a.currency),
       updatedAt := Some(now))
  }

  /** The balance table without the rows of account `id`. */
  function WithoutAccount(bals: map<nat, Balance>, id: nat): map<nat, Balance>
  {
    map k | k in bals && bals[k].accountId != id :: bals[k]
  }

  class FinStore {
    var accounts: map<nat, Account>
    var balances: map<nat, Balance>
    /** The key generator of `accounts`: the id the next added account receives. */
    var nextAccountId: nat
    /** The key generator of `balances`. */
    var nextBalanceId: nat

    ghost predicate Valid()
      reads this
    {
      && Keyed(accounts, AccountKey) && Below(accounts, nextAccountId)
      && Keyed(balances, BalanceKey) && Below(balances, nextBalanceId)
    }

    /** A freshly created database: both tables empty, both generators at 1. */
    constructor ()
      ensures Valid()
      ensures accounts == map[] && balances == map[]
      ensures nextAccountId == 1 && nextBalanceId == 1
    {
      accounts, balances := map[], map[];
      nextAccountId, nextBalanceId := 1, 1;
    }

    /** `addAccount`: stores the fields with a new id and `created_at`, returning the id. */
    method AddAccount(fields: AccountFields, now: Timestamp) returns (id: nat)
      requires Valid()
      modifies this
      ensures Valid()
      ensures id !in old(accounts) && id == old(nextAccountId)
      ensures accounts == old(accounts)[id := Account(id, fields.name, fields.kind, fields.currency, now, None)]
      ensures balances == old(balances)
      ensures nextAccountId == id + 1 && nextBalanceId == old(nextBalanceId)
    {
      id := nextAccountId;
      accounts := accounts[id := Account(id, fields.name, fields.kind, fields.currency, now, None)];
      nextAccountId := nextAccountId + 1;
    }

    /**
     * `updateAccount`: on the account with that id, replaces the supplied
     * fields and sets `updated_at`; returns how many rows changed (0 or 1).
     */
    method UpdateAccount(id: nat, updates: AccountUpdate, now: Timestamp) returns (count: nat)
      requires Valid()
      modifies this
      ensures Valid()
      ensures count == if id in old(accounts) then 1 else 0
      ensures accounts.Keys == old(accounts).Keys
      ensures forall k :: k in accounts && k != id ==> accounts[k] == old(accounts)[k]
      ensures id in accounts ==>
        var a, b := old(accounts)[id], accounts[id];
        && b.id == id && b.createdAt == a.createdAt && b.updatedAt == Some(now)
        && b.name == (if updates.name.Some? then updates.name.value else a.name)
        && b.kind == (if updates.kind.Some? then updates.kind.value else a.kind)
        && b.currency == (if updates.currency.Some? then updates.currency.value else a.currency)
      ensures balances == old(balances)
      ensures nextAccountId == old(nextAccountId) && nextBalanceId == old(nextBalanceId)
    {
      if id in accounts {
        accounts := accounts[id := Merge(accounts[id], updates, now)];
        count := 1;
      } else {
        count := 0;
      }
    }

    /** `deleteAccount`: removes the account's balance rows, then the account. */
    method DeleteAccount(id: nat)
      requires Valid()
      modifies this
      ensures Valid()
      ensures accounts == old(accounts) - {id}
      ensures forall k :: k in balances ==> balances[k].accountId != id
      ensures forall k :: k in old(balances) && old(balances)[k].accountId != id ==>
        k in balances && balances[k] == old(balances)[k]
      ensures forall k :: k in balances ==> k in old(balances) && balances[k] == old(balances)[k]
      ensures nextAccountId == old(nextAccountId) && nextBalanceId == old(nextBalanceId)
    {
      balances := WithoutAccount(balances, id);
      accounts := accounts - {id};
    }

    /**
     * `addBalance`: appends one snapshot of account `accountId` with a new id;
     * `today` is the calendar day and `now` the instant, read separately.
     */
    method AddBalance(accountId: nat, amount: real, today: string, now: Timestamp, notes: string := "")
      returns (id: nat)
      requires Valid()
      modifies this
      ensures Valid()
      ensures id !in old(balances) && id == old(nextBalanceId)
      ensures balances == old(balances)[id := Balance(id, accountId, amount, today, notes, now)]
      ensures accounts == old(accounts)
      ensures nextBalanceId == id + 1 && nextAccountId == old(nextAccountId)
    {
      id := nextBalanceId;
      balances := balances[id := Balance(id, accountId, amount, today, notes, now)];
      nextBalanceId := nextBalanceId + 1;
    }

    /** `getAllAccounts`: every account exactly once, ascending by name, then by id. */
    function GetAllAccounts(): (r: seq<Account>)
      reads this
      requires Valid()
      ensures StrictlySorted(r)
      ensures Holds(accounts, r, AccountKey)
      ensures DistinctKeys(r, AccountKey)
    {
      var rows := Rows(accounts, AccountKey, nextAccountId);
      RowsHold(accounts, AccountKey, nextAccountId);
      var r := SortAccounts(rows);
      SortedListing(accounts, rows, r);
      r
    }

    /**
     * `getLatestBalances`: for each account in `getAllAccounts` order, its
     * fields with its latest amount and day (see `ViewOfIsLatest`).
     */
    method GetLatestBalances() returns (r: seq<LatestView>)
      requires Valid()
      ensures r == Views(GetAllAccounts(), balances, nextBalanceId)
    {
      var accs := GetAllAccounts();
      r := LatestBalancesOf(accs, balances, nextBalanceId);
    }

    /**
     * `getTotalsByCurrency`: one entry per distinct currency of the accounts,
     * holding the sum of their latest balances.
     */
    method GetTotalsByCurrency() returns (totals: map<string, real>)
      requires Valid()
      ensures totals.Keys == set k | k in accounts :: accounts[k].currency
      ensures forall c :: c in totals ==> totals[c] == SumFor(Views(GetAllAccounts(), balances, nextBalanceId), c)
    {
      var views := GetLatestBalances();
      totals := SumByCurrency(views);
      CurrenciesOfListing(GetAllAccounts(), accounts, balances, nextBalanceId);
    }

    /** `exportData`: a snapshot of both tables, without changing them. */
    method ExportData(exportedAt: string) returns (d: Backup)
      requires Valid()
      ensures d.accounts == Some(GetAllAccounts())
      ensures d.balances.Some?
      ensures Holds(balances, d.balances.value, BalanceKey) && Ascending(d.balances.value, BalanceKey)
      ensures d.exportedAt == exportedAt
    {
      var accs := GetAllAccounts();
      var bals := Rows(balances, BalanceKey, nextBalanceId);
      RowsHold(balances, BalanceKey, nextBalanceId);
      d := Backup(Some(accs), Some(bals), exportedAt);
    }

    /**
     * `importData`: in one transaction, clears both tables and bulk-inserts
     * the document's rows under their own ids; a missing array restores an
     * empty table. A repeated id aborts the transaction, leaving the store as it was.
     */
    method ImportData(d: Backup) returns (ok: bool)
      requires Valid()
      modifies this
      ensures Valid()
      ensures ok <==> DistinctKeys(d.AccountRows(), AccountKey) && DistinctKeys(d.BalanceRows(), BalanceKey)
      ensures ok ==> Holds(accounts, d.AccountRows(), AccountKey) && Holds(balances, d.BalanceRows(), BalanceKey)
      ensures ok ==> nextAccountId == NextAfter(old(nextAccountId), d.AccountRows(), AccountKey)
      ensures ok ==> nextBalanceId == NextAfter(old(nextBalanceId), d.BalanceRows(), BalanceKey)
      ensures !ok ==> accounts == old(accounts) && balances == old(balances)
      ensures !ok ==> nextAccountId == old(nextAccountId) && nextBalanceId == old(nextBalanceId)
    {
      var accs := Load(d.AccountRows(), AccountKey);
      var bals := Load(d.BalanceRows(), BalanceKey);
      if accs.Some? && bals.Some? {
        accounts := accs.value;
        balances := bals.value;
        nextAccountId := NextAfter(nextAccountId, d.AccountRows(), AccountKey);
        nextBalanceId := NextAfter(nextBalanceId, d.BalanceRows(), BalanceKey);
        ok := true;
        LoadedBelow(accounts, d.AccountRows(), AccountKey, old(nextAccountId));
        LoadedBelow(balances, d.BalanceRows(), BalanceKey, old(nextBalanceId));
      } else {
        ok := false;
      }
    }

    /**
     * Importing the store's own export restores the same tables and key
     * generators, so `getLatestBalances` answers as before.
     */
    method ImportOwnExport(exportedAt: string) returns (before: seq<LatestView>, after: seq<LatestView>)
      requires Valid()
      modifies this
      ensures Valid()
      ensures accounts == old(accounts) && balances == old(balances)
      ensures nextAccountId == old(nextAccountId) && nextBalanceId == old(nextBalanceId)
      ensures before == after
    {
      before := GetLatestBalances();
      ghost var accs0, bals0 := accounts, balances;
      var d := ExportData(exportedAt);
      var ok := ImportData(d);
      assert ok;
      HoldsUnique(accounts, accs0, d.AccountRows(), AccountKey);
      HoldsUnique(balances, bals0, d.BalanceRows(), BalanceKey);
      after := GetLatestBalances();
    }
  }

  /**
   * The loop of `getLatestBalances` over the listed accounts: each account's
   * history, its most recent record, and the entry pushed for it.
   */
  method LatestBalancesOf(accs: seq<Account>, bals: map<nat, Balance>, n: nat) returns (r: seq<LatestView>)
    requires Keyed(bals, BalanceKey)
    ensures r == Views(accs, bals, n)
  {
    var rows := Rows(bals, BalanceKey, n);
    r := [];
    var i := 0;
    while i < |accs|
      invariant 0 <= i <= |accs|
      invariant |r| == i
      invariant forall j :: 0 <= j < i ==> r[j] == ViewOf(accs[j], bals, n)
    {
      var history := OfAccount(rows, accs[i].id);
      var latest := MostRecent(history);
      var view := match latest
        case None => LatestView(accs[i], 0.0, None)
        case Some(b) => LatestView(accs[i], b.balance, Some(b.date));
      assert latest == Latest(OfAccount(Rows(bals, BalanceKey, n), accs[i].id));
      assert view == ViewOf(accs[i], bals, n);
      ghost var prev := r;
      r := r + [view];
      assert forall j :: 0 <= j < i ==> r[j] == prev[j];
      i := i + 1;
    }
    assert r == Views(accs, bals, n);
  }

  /**
   * Sorting a history by `created_at`, most recent first, and taking the head:
   * a scan that keeps the first record with the greatest `created_at`.
   */
  method MostRecent(history: seq<Balance>) returns (latest: Option<Balance>)
    ensures latest == Latest(history)
  {
    latest := None;
    var j := 0;
    while j < |history|
      invariant 0 <= j <= |history|
      invariant latest == Latest(history[..j])
    {
      assert history[..j + 1][..j] == history[..j];
      if latest.None? || latest.value.createdAt < history[j].createdAt {
        latest := Some(history[j]);
      }
      j := j + 1;
    }
    assert history[..j] == history;
  }

  /**
   * The `forEach` of `getTotalsByCurrency`: a zero entry for a currency not yet
   * seen (or whose entry is 0), then the entry's amount added to it.
   */
  method SumByCurrency(views: seq<LatestView>) returns (totals: map<string, real>)
    ensures totals.Keys == Currencies(views)
    ensures forall c :: c in totals ==> totals[c] == SumFor(views, c)
  {
    totals := map[];
    var i := 0;
    while i < |views|
      invariant 0 <= i <= |views|
      invariant totals.Keys == Currencies(views[..i])
      invariant forall c :: c in totals ==> totals[c] == SumFor(views[..i], c)
    {
      var v := views[i];
      var c := v.account.currency;
      ghost var before, done := totals, views[..i];
      if c !in totals || totals[c] == 0.0 {
        totals := totals[c := 0.0];
      }
      totals := totals[c := totals[c] + v.latestBalance];
      assert views[..i + 1] == done + [v];
      assert totals.Keys == before.Keys + {c};
      SumForSnoc(done, v, c);
      if c !in before {
        SumForAbsent(done, c);
      }
      forall d | d in totals ensures totals[d] == SumFor(done + [v], d) {
        SumForSnoc(done, v, d);
      }
      i := i + 1;
    }
    assert views[..i] == views;
  }

  /** Sorting the rows of a keyed table lists each of its accounts exactly once. */
  lemma SortedListing(t: map<nat, Account>, rows: seq<Account>, r: seq<Account>)
    requires Holds(t, rows, AccountKey)
    requires StrictlySorted(r) && forall y :: y in r <==> y in rows
    ensures Holds(t, r, AccountKey) && DistinctKeys(r, AccountKey)
  {
    forall i | 0 <= i < |r| ensures r[i].id in t && t[r[i].id] == r[i] {
      assert r[i] in rows;
      var j :| 0 <= j < |rows| && rows[j] == r[i];
      assert AccountKey(rows[j]) in t;
    }
    forall k | k in t ensures t[k] in r {
      assert t[k] in rows;
    }
    forall i, j | 0 <= i < j < |r| ensures r[i].id != r[j].id {
      if r[i].id == r[j].id {
        assert r[i] == r[j];
        AccountLessIrreflexive(r[i]);
      }
    }
  }

  /** The currencies of the entries are those of the accounts listed. */
  lemma CurrenciesOfListing(accs: seq<Account>, t: map<nat, Account>, bals: map<nat, Balance>, n: nat)
    requires Keyed(bals, BalanceKey) && Holds(t, accs, AccountKey)
    ensures Currencies(Views(accs, bals, n)) == set k | k in t :: t[k].currency
  {
    var vs := Views(accs, bals, n);
    forall c | c in Currencies(vs) ensures c in set k | k in t :: t[k].currency {
      var v :| v in vs && v.account.currency == c;
      var j :| 0 <= j < |vs| && vs[j] == v;
      assert accs[j].id in t && t[accs[j].id] == accs[j];
    }
    forall c | c in set k | k in t :: t[k].currency ensures c in Currencies(vs) {
      var k :| k in t && t[k].currency == c;
      var j :| 0 <= j < |accs| && accs[j] == t[k];
      assert vs[j] in vs;
    }
  }
}
