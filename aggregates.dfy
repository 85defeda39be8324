/**
 * The derived views: each account's latest balance and the totals per
 * currency, as pure functions of the two tables.
 */
module Aggregates {
  import opened Wrappers
  import opened Records
  import opened Tables

  /**
   * The rows of `rows` that belong to account `acct`, in their original order:
   * what `where('account_id').equals(acct).toArray()` returns.
   */
  function OfAccount(rows: seq<Balance>, acct: nat): (r: seq<Balance>)
    ensures forall x :: x in r <==> x in rows && x.accountId == acct
    decreases |rows|
  {
    if rows == [] then []
    else
      var prefix := rows[..|rows| - 1];
      var x := rows[|rows| - 1];
      assert rows == prefix + [x];
      OfAccount(prefix, acct) + (if x.accountId == acct then [x] else [])
  }

  /** Selecting one account's rows keeps them in ascending key order. */
  lemma {:induction false} OfAccountAscending(rows: seq<Balance>, acct: nat)
    requires Ascending(rows, BalanceKey)
    ensures Ascending(OfAccount(rows, acct), BalanceKey)
    decreases |rows|
  {
    if rows != [] {
      var prefix := rows[..|rows| - 1];
      var x := rows[|rows| - 1];
      var p := OfAccount(prefix, acct);
      OfAccountAscending(prefix, acct);
      forall i | 0 <= i < |p| ensures BalanceKey(p[i]) < BalanceKey(x) {
        assert p[i] in prefix;
        var j :| 0 <= j < |prefix| && prefix[j] == p[i];
        assert rows[j] == p[i];
      }
    }
  }

  /**
   * The first record with the greatest `created_at`: what a stable sort by
   * `created_at`, most recent first, puts in front. `None` for no records.
   */
  function Latest(h: seq<Balance>): (r: Option<Balance>)
    ensures r.None? <==> h == []
    ensures r.Some? ==> forall i :: 0 <= i < |h| ==> h[i].createdAt <= r.value.createdAt
    ensures r.Some? ==> exists j :: 0 <= j < |h| && h[j] == r.value && forall i :: 0 <= i < j ==> h[i].createdAt < r.value.createdAt
    decreases |h|
  {
    if h == [] then None
    else
      var prefix := h[..|h| - 1];
      var x := h[|h| - 1];
      assert h == prefix + [x];
      var p := Latest(prefix);
      if p.None? || p.value.createdAt < x.createdAt then
        assert forall i :: 0 <= i < |h| - 1 ==> h[i] == prefix[i];
        Some(x)
      else
        assert exists j :: 0 <= j < |h| && h[j] == p.value && forall i :: 0 <= i < j ==> h[i].createdAt < p.value.createdAt by {
          var j :| 0 <= j < |prefix| && prefix[j] == p.value && forall i :: 0 <= i < j ==> prefix[i].createdAt < p.value.createdAt;
          assert forall i :: 0 <= i <= j ==> h[i] == prefix[i];
        }
        p
  }

  /**
   * An account's entry in `getLatestBalances`: its fields, the amount of its
   * latest record (0 without records) and that record's day (absent without).
   */
  function ViewOf(a: Account, bals: map<nat, Balance>, n: nat): LatestView
    requires Keyed(bals, BalanceKey)
  {
    match Latest(OfAccount(Rows(bals, BalanceKey, n), a.id))
    case None => LatestView(a, 0.0, None)
    case Some(b) => LatestView(a, b.balance, Some(b.date))
  }

  /**
   * Record `k` is account `acct`'s latest: no record of that account is more
   * recent, and of equally recent ones it has the smallest id.
   */
  ghost predicate IsLatestRecord(bals: map<nat, Balance>, k: nat, acct: nat)
  {
    && k in bals && bals[k].accountId == acct
    && forall j :: j in bals && bals[j].accountId == acct ==>
         bals[j].createdAt < bals[k].createdAt || (bals[j].createdAt == bals[k].createdAt && k <= j)
  }

  /**
   * The meaning of an entry: without history the amount is 0 and the day
   * absent; otherwise both come from the record with the greatest `created_at`.
   */
  lemma ViewOfIsLatest(a: Account, bals: map<nat, Balance>, n: nat)
    requires Keyed(bals, BalanceKey) && Below(bals, n)
    ensures ViewOf(a, bals, n).account == a
    ensures ViewOf(a, bals, n).lastUpdated.None? <==> forall k :: k in bals ==> bals[k].accountId != a.id
    ensures ViewOf(a, bals, n).lastUpdated.None? ==> ViewOf(a, bals, n).latestBalance == 0.0
    ensures ViewOf(a, bals, n).lastUpdated.Some? ==>
      exists k :: IsLatestRecord(bals, k, a.id)
        && ViewOf(a, bals, n).latestBalance == bals[k].balance
        && ViewOf(a, bals, n).lastUpdated == Some(bals[k].date)
  {
    var rows := Rows(bals, BalanceKey, n);
    var h := OfAccount(rows, a.id);
    match Latest(h)
    case None =>
      forall k | k in bals ensures bals[k].accountId != a.id {
        assert bals[k] in rows;
      }
    case Some(b) =>
      LatestIsLatestRecord(bals, n, a.id, b);
  }

  /** The record `Latest` picks from an account's history is that account's latest record. */
  lemma LatestIsLatestRecord(bals: map<nat, Balance>, n: nat, acct: nat, b: Balance)
    requires Keyed(bals, BalanceKey) && Below(bals, n)
    requires Latest(OfAccount(Rows(bals, BalanceKey, n), acct)) == Some(b)
    ensures b.id in bals && bals[b.id] == b && IsLatestRecord(bals, b.id, acct)
  {
    var rows := Rows(bals, BalanceKey, n);
    var h := OfAccount(rows, acct);
    OfAccountAscending(rows, acct);
    var j :| 0 <= j < |h| && h[j] == b && forall i :: 0 <= i < j ==> h[i].createdAt < b.createdAt;
    assert b in rows;
    forall m | m in bals && bals[m].accountId == acct
      ensures bals[m].createdAt < b.createdAt || (bals[m].createdAt == b.createdAt && b.id <= m)
    {
      assert bals[m] in rows;
      assert bals[m] in h;
      var i :| 0 <= i < |h| && h[i] == bals[m];
      if bals[m].createdAt == b.createdAt && i != j {
        assert j < i;
        assert BalanceKey(h[j]) < BalanceKey(h[i]);
      }
    }
  }

  /** The entries of `getLatestBalances` for the accounts `accs`, in their order. */
  function Views(accs: seq<Account>, bals: map<nat, Balance>, n: nat): (r: seq<LatestView>)
    requires Keyed(bals, BalanceKey)
  {
    seq(|accs|, i requires 0 <= i < |accs| => ViewOf(accs[i], bals, n))
  }

  /** The distinct currency strings among the entries. */
  function Currencies(vs: seq<LatestView>): set<string>
  {
    set v | v in vs :: v.account.currency
  }

  /** The sum of the latest balances of the entries whose currency is exactly `c`. */
  function SumFor(vs: seq<LatestView>, c: string): real
    decreases |vs|
  {
    if vs == [] then 0.0
    else
      var v := vs[|vs| - 1];
      SumFor(vs[..|vs| - 1], c) + (if v.account.currency == c then v.latestBalance else 0.0)
  }

  /** Appending one entry adds its currency and its amount to that currency's sum. */
  lemma SumForSnoc(vs: seq<LatestView>, v: LatestView, c: string)
    ensures Currencies(vs + [v]) == Currencies(vs) + {v.account.currency}
    ensures SumFor(vs + [v], c) == SumFor(vs, c) + (if v.account.currency == c then v.latestBalance else 0.0)
  {
  }

  /** A currency no entry has sums to nothing. */
  lemma {:induction false} SumForAbsent(vs: seq<LatestView>, c: string)
    requires c !in Currencies(vs)
    ensures SumFor(vs, c) == 0.0
    decreases |vs|
  {
    if vs != [] {
      var prefix := vs[..|vs| - 1];
      assert forall v :: v in prefix ==> v in vs;
      assert vs[|vs| - 1] in vs;
      SumForAbsent(prefix, c);
    }
  }
}
