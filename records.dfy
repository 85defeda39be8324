/**
 * The two record kinds of the finance store (accounts and balance snapshots),
 * the account-type enumeration and the backup document.
 */
module Records {
  import opened Wrappers

  /** A clock reading (`new Date()`), in milliseconds since the epoch. */
  type Timestamp = int

  /** The `AccountTypes` enumeration. */
  datatype AccountType = Bank | Wallet | Card | Exchange

  /** The string each enumeration member stands for in a stored account. */
  function TypeName(t: AccountType): string
  {
    match t
    case Bank => "bank"
    case Wallet => "wallet"
    case Card => "card"
    case Exchange => "exchange"
  }

  /**
   * The enumeration member a stored `type` string names, if any. The store
   * keeps any string; a string that names no member is "unknown".
   */
  function ParseType(s: string): (r: Option<AccountType>)
    ensures r.Some? ==> TypeName(r.value) == s
    ensures forall t :: TypeName(t) == s ==> r == Some(t)
  {
    if s == "bank" then Some(Bank)
    else if s == "wallet" then Some(Wallet)
    else if s == "card" then Some(Card)
    else if s == "exchange" then Some(Exchange)
    else None
  }

  /** A row of the `accounts` table; `kind` is the source's `type` field. */
  datatype Account = Account(
    id: nat,
    name: string,
    kind: string,
    currency: string,
    createdAt: Timestamp,
    updatedAt: Option<Timestamp>)

  /** What a caller hands to `addAccount`. */
  datatype AccountFields = AccountFields(name: string, kind: string, currency: string)

  /** What a caller hands to `updateAccount`: `None` is a field it leaves out. */
  datatype AccountUpdate = AccountUpdate(name: Option<string>, kind: Option<string>, currency: Option<string>)

  /** A row of the `balances` table: one snapshot of one account's amount. */
  datatype Balance = Balance(
    id: nat,
    accountId: nat,
    balance: real,
    date: string,
    notes: string,
    createdAt: Timestamp)

  /** The primary key of an account row. */
  function AccountKey(a: Account): nat { a.id }

  /** The primary key of a balance row. */
  function BalanceKey(b: Balance): nat { b.id }

  /** An entry of `getLatestBalances`: the account's fields plus its latest amount and day. */
  datatype LatestView = LatestView(account: Account, latestBalance: real, lastUpdated: Option<string>)

  /** The backup document; either array may be missing. */
  datatype Backup = Backup(accounts: Option<seq<Account>>, balances: Option<seq<Balance>>, exportedAt: string) {

    /** The account rows to restore: none when the array is missing. */
    function AccountRows(): seq<Account> { accounts.GetOr([]) }

    /** The balance rows to restore: none when the array is missing. */
    function BalanceRows(): seq<Balance> { balances.GetOr([]) }
  }
}
