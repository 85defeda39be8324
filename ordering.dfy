/**
 * The order of the `name` index that `getAllAccounts` reads: names compared
 * character by character, ties broken by primary key.
 */
module Ordering {
  import opened Records
  import opened Tables

  /** Lexicographic order on strings, a proper prefix first. */
  predicate StrLess(a: string, b: string)
    decreases |a|
  {
    if a == [] then b != []
    else if b == [] then false
    else if a[0] != b[0] then a[0] < b[0]
    else StrLess(a[1..], b[1..])
  }

  lemma {:induction false} StrLessIrreflexive(a: string)
    ensures !StrLess(a, a)
    decreases |a|
  {
    if a != [] {
      StrLessIrreflexive(a[1..]);
    }
  }

  lemma {:induction false} StrLessTransitive(a: string, b: string, c: string)
    requires StrLess(a, b) && StrLess(b, c)
    ensures StrLess(a, c)
    decreases |a|
  {
    if a != [] && a[0] == b[0] && b[0] == c[0] {
      StrLessTransitive(a[1..], b[1..], c[1..]);
    }
  }

  lemma {:induction false} StrLessTotal(a: string, b: string)
    requires a != b
    ensures StrLess(a, b) || StrLess(b, a)
    decreases |a|
  {
    if a != [] && b != [] && a[0] == b[0] {
      assert a == [a[0]] + a[1..] && b == [b[0]] + b[1..];
      StrLessTotal(a[1..], b[1..]);
    }
  }

  /** The position of `a` before `b` in the `name` index. */
  predicate AccountLess(a: Account, b: Account)
  {
    StrLess(a.name, b.name) || (a.name == b.name && a.id < b.id)
  }

  /** Accounts in strictly ascending index order. */
  ghost predicate StrictlySorted(s: seq<Account>)
  {
    forall i, j :: 0 <= i < j < |s| ==> AccountLess(s[i], s[j])
  }

  lemma AccountLessIrreflexive(a: Account)
    ensures !AccountLess(a, a)
  {
    StrLessIrreflexive(a.name);
  }

  lemma AccountLessTransitive(a: Account, b: Account, c: Account)
    requires AccountLess(a, b) && AccountLess(b, c)
    ensures AccountLess(a, c)
  {
    if StrLess(a.name, b.name) && StrLess(b.name, c.name) {
      StrLessTransitive(a.name, b.name, c.name);
    }
  }

  lemma AccountLessTotal(a: Account, b: Account)
    requires a.id != b.id
    ensures AccountLess(a, b) || AccountLess(b, a)
  {
    if a.name != b.name {
      StrLessTotal(a.name, b.name);
    }
  }

  /** An element before every element of a sorted sequence can be put in front of it. */
  lemma ConsSorted(x: Account, s: seq<Account>)
    requires StrictlySorted(s)
    requires forall y :: y in s ==> AccountLess(x, y)
    ensures StrictlySorted([x] + s)
  {
    var r := [x] + s;
    forall i, j | 0 <= i < j < |r| ensures AccountLess(r[i], r[j]) {
      assert r[j] == s[j - 1];
      if i > 0 { assert r[i] == s[i - 1]; }
    }
  }

  /** Places `x` into the ascending sequence `s`. */
  function Insert(x: Account, s: seq<Account>): (r: seq<Account>)
    ensures |r| == |s| + 1
    ensures multiset(r) == multiset(s) + multiset{x}
    ensures forall y :: y in r <==> y == x || y in s
    ensures StrictlySorted(s) && (forall y :: y in s ==> y.id != x.id) ==> StrictlySorted(r)
  {
    if s == [] then [x]
    else if AccountLess(x, s[0]) then
      assert StrictlySorted(s) ==> StrictlySorted([x] + s) by {
        if StrictlySorted(s) {
          forall y | y in s ensures AccountLess(x, y) {
            var j :| 0 <= j < |s| && s[j] == y;
            if j > 0 { AccountLessTransitive(x, s[0], s[j]); }
          }
          ConsSorted(x, s);
        }
      }
      [x] + s
    else
      var rest := Insert(x, s[1..]);
      assert s == [s[0]] + s[1..];
      assert StrictlySorted(s) && (forall y :: y in s ==> y.id != x.id) ==> StrictlySorted([s[0]] + rest) by {
        if StrictlySorted(s) && (forall y :: y in s ==> y.id != x.id) {
          forall y | y in rest ensures AccountLess(s[0], y) {
            if y == x {
              AccountLessTotal(x, s[0]);
            } else {
              var j :| 0 <= j < |s[1..]| && s[1..][j] == y;
              assert s[j + 1] == y;
            }
          }
          ConsSorted(s[0], rest);
        }
      }
      [s[0]] + rest
  }

  /** Dropping the head of a keyed sequence with distinct keys keeps them distinct, and none is the head's. */
  lemma DistinctTail(s: seq<Account>)
    requires |s| > 0 && DistinctKeys(s, AccountKey)
    ensures DistinctKeys(s[1..], AccountKey)
    ensures forall y :: y in s[1..] ==> y.id != s[0].id
  {
    forall y | y in s[1..] ensures y.id != s[0].id {
      var j :| 0 <= j < |s[1..]| && s[1..][j] == y;
      assert AccountKey(s[0]) != AccountKey(s[j + 1]);
    }
  }

  /** Insertion sort into index order; rows with distinct keys come out strictly ascending. */
  function SortAccounts(s: seq<Account>): (r: seq<Account>)
    ensures |r| == |s|
    ensures multiset(r) == multiset(s)
    ensures forall y :: y in r <==> y in s
    ensures DistinctKeys(s, AccountKey) ==> StrictlySorted(r)
  {
    if s == [] then []
    else
      var rest := SortAccounts(s[1..]);
      assert s == [s[0]] + s[1..];
      assert DistinctKeys(s, AccountKey) ==> DistinctKeys(s[1..], AccountKey) && forall y :: y in rest ==> y.id != s[0].id by {
        if DistinctKeys(s, AccountKey) { DistinctTail(s); }
      }
      Insert(s[0], rest)
  }
}
