/**
 * The account store and the lookups the handlers use on it.
 *
 * A JavaScript account is an object that several names can refer to at
 * once: the `accounts` array, `currentAccount`, the receiver of a
 * transfer. The model gives each account an identity (`AccountId`) and
 * keeps every record in `accounts`; the `store` is the `accounts` array of
 * the program, an ordered list of identities. Removing an entry from the
 * store leaves the record alive, exactly as a spliced-out object stays
 * reachable through `currentAccount`.
 */
module Store {
  import opened Wrappers
  import opened Movements

  type AccountId = nat

  /**
   * One customer. `balance` is the cache `calcDisplayBalance` writes; it is
   * `None` (JavaScript's `undefined`) until the account is first displayed.
   */
  datatype Account = Account(
    owner: string,
    username: string,
    movements: seq<int>,
    interestRate: real,
    pin: int,
    balance: Option<int>)

  /** The whole application state: records, the store, `currentAccount` and `sorted`. */
  datatype Bank = Bank(
    accounts: map<AccountId, Account>,
    store: seq<AccountId>,
    current: Option<AccountId>,
    sorted: bool)

  predicate Distinct(ids: seq<AccountId>)
  {
    forall i, j :: 0 <= i < j < |ids| ==> ids[i] != ids[j]
  }

  predicate Stored(ids: seq<AccountId>, accounts: map<AccountId, Account>)
  {
    forall i :: 0 <= i < |ids| ==> ids[i] in accounts
  }

  /** Every stored id and the current id name a record; an object appears once in the array. */
  predicate Valid(b: Bank)
  {
    && Stored(b.store, b.accounts)
    && Distinct(b.store)
    && (b.current.Some? ==> b.current.value in b.accounts)
  }

  /** Some stored account has this username. */
  predicate HasUser(b: Bank, user: string)
    requires Valid(b)
  {
    exists k :: 0 <= k < |b.store| && b.accounts[b.store[k]].username == user
  }

  /** `id` is the first stored account whose username is `user`. */
  predicate FirstWithUser(b: Bank, user: string, id: AccountId)
    requires Valid(b)
  {
    exists k :: 0 <= k < |b.store| && b.store[k] == id
      && b.accounts[id].username == user
      && forall j :: 0 <= j < k ==> b.accounts[b.store[j]].username != user
  }

  /** `findIndex(acc => acc.username === user)`: the first match, or -1. */
  function FindIndex(ids: seq<AccountId>, accounts: map<AccountId, Account>, user: string): (r: int)
    requires Stored(ids, accounts)
    ensures -1 <= r < |ids|
    ensures r == -1 <==> forall k :: 0 <= k < |ids| ==> accounts[ids[k]].username != user
    ensures 0 <= r ==> accounts[ids[r]].username == user
    ensures 0 <= r ==> forall k :: 0 <= k < r ==> accounts[ids[k]].username != user
  {
    if |ids| == 0 then -1
    else if accounts[ids[0]].username == user then 0
    else
      var r := FindIndex(ids[1..], accounts, user);
      if r == -1 then -1 else r + 1
  }

  /** `find(acc => acc.username === user)`: the first matching account, or undefined. */
  function Find(b: Bank, user: string): (r: Option<AccountId>)
    requires Valid(b)
    ensures r.Some? <==> HasUser(b, user)
    ensures r.Some? ==> r.value in b.accounts && FirstWithUser(b, user, r.value)
  {
    var i := FindIndex(b.store, b.accounts, user);
    if i == -1 then None else Some(b.store[i])
  }

  /** `r` is `s` without its element at position `i`. */
  predicate RemovedAt(r: seq<AccountId>, s: seq<AccountId>, i: int)
  {
    && 0 <= i < |s|
    && |r| == |s| - 1
    && (forall k :: 0 <= k < i ==> r[k] == s[k])
    && (forall k :: i <= k < |r| ==> r[k] == s[k + 1])
  }

  /**
   * `splice(start, 1)`: a negative start counts from the end (so -1 is the
   * last element) and is clamped to 0; a start past the end deletes nothing.
   */
  function Splice(s: seq<AccountId>, start: int): (r: seq<AccountId>)
    ensures 0 <= start < |s| ==> RemovedAt(r, s, start)
    ensures -|s| <= start < 0 ==> RemovedAt(r, s, |s| + start)
    ensures start < -|s| && |s| > 0 ==> RemovedAt(r, s, 0)
    ensures start >= |s| ==> r == s
    ensures |s| == 0 ==> r == []
  {
    var len := |s|;
    var actual := if start < 0 then (if len + start > 0 then len + start else 0)
                  else (if start < len then start else len);
    var count := if len - actual < 1 then len - actual else 1;
    s[..actual] + s[actual + count..]
  }

  /** `accounts.map(acc => acc.movements).flat()`: every movement of every stored account. */
  function AllMovements(ids: seq<AccountId>, accounts: map<AccountId, Account>): seq<int>
    requires Stored(ids, accounts)
  {
    if |ids| == 0 then []
    else AllMovements(ids[..|ids| - 1], accounts) + accounts[ids[|ids| - 1]].movements
  }

  /** The overall balance of the bank: the sum of all stored accounts' movements. */
  function Total(b: Bank): int
    requires Valid(b)
  {
    Sum(AllMovements(b.store, b.accounts))
  }

  // ---------------------------------------------------------------------

  /** Removing one element keeps the rest distinct and drops exactly that element. */
  lemma RemovedAtMultiset(r: seq<AccountId>, s: seq<AccountId>, i: int)
    requires RemovedAt(r, s, i)
    ensures r == s[..i] + s[i + 1..]
    ensures multiset(r) == multiset(s) - multiset{s[i]}
    ensures Distinct(s) ==> Distinct(r) && s[i] !in r
  {
    assert r == s[..i] + s[i + 1..];
    assert s == s[..i] + [s[i]] + s[i + 1..];
    if Distinct(s) {
      forall k | 0 <= k < |r|
        ensures r[k] != s[i]
      {
        if k < i { assert r[k] == s[k]; } else { assert r[k] == s[k + 1]; }
      }
    }
  }

  /**
   * Changing one record shifts the overall balance by the change of that
   * record's own sum, when it is stored, and not at all otherwise.
   */
  lemma {:induction false} TotalUpdate(ids: seq<AccountId>, accounts: map<AccountId, Account>, x: AccountId, a: Account)
    requires Stored(ids, accounts)
    requires Distinct(ids)
    requires x in accounts
    ensures Stored(ids, accounts[x := a])
    ensures Sum(AllMovements(ids, accounts[x := a])) ==
      Sum(AllMovements(ids, accounts))
      + (if x in ids then Sum(a.movements) - Sum(accounts[x].movements) else 0)
    decreases |ids|
  {
    var accounts' := accounts[x := a];
    if |ids| > 0 {
      var p, y := ids[..|ids| - 1], ids[|ids| - 1];
      assert Distinct(p);
      assert Stored(p, accounts);
      TotalUpdate(p, accounts, x, a);
      SumConcat(AllMovements(p, accounts), accounts[y].movements);
      SumConcat(AllMovements(p, accounts'), accounts'[y].movements);
      assert ids == p + [y];
      if x == y {
        assert x !in p;
      }
    }
  }

  /**
   * The store edit of a successful close, `splice(findIndex(...), 1)`:
   * the first stored account named `user` goes; with none, `findIndex`
   * gives -1 and the last entry goes instead, if there is one.
   */
  function RemoveFirstWithUser(b: Bank, user: string): (s: seq<AccountId>)
    requires Valid(b)
    ensures Valid(b.(store := s))
    ensures HasUser(b, user) ==>
      exists i :: 0 <= i < |b.store| && FirstWithUser(b, user, b.store[i]) && RemovedAt(s, b.store, i)
    ensures !HasUser(b, user) ==>
      if |b.store| == 0 then s == [] else RemovedAt(s, b.store, |b.store| - 1)
  {
    SpliceKeepsValid(b, user);
    SpliceRemovesFirstMatch(b, user);
    SpliceWithoutMatch(b, user);
    Splice(b.store, FindIndex(b.store, b.accounts, user))
  }


  lemma SpliceKeepsValid(b: Bank, user: string)
    requires Valid(b)
    ensures Valid(b.(store := Splice(b.store, FindIndex(b.store, b.accounts, user))))
  {
    var index := FindIndex(b.store, b.accounts, user);
    var s := Splice(b.store, index);
    if 0 <= index {
      RemovedKeepsValid(b, s, index);
    } else if |b.store| > 0 {
      RemovedKeepsValid(b, s, |b.store| - 1);
    }
  }

  lemma RemovedKeepsValid(b: Bank, s: seq<AccountId>, i: int)
    requires Valid(b)
    requires RemovedAt(s, b.store, i)
    ensures Valid(b.(store := s))
  {
    RemovedAtMultiset(s, b.store, i);
    forall k | 0 <= k < |s|
      ensures s[k] in b.accounts
    {
      if k < i { assert s[k] == b.store[k]; } else { assert s[k] == b.store[k + 1]; }
    }
  }

  /** With a match, exactly the first stored account of that username is removed. */
  lemma SpliceRemovesFirstMatch(b: Bank, user: string)
    requires Valid(b)
    ensures var s := Splice(b.store, FindIndex(b.store, b.accounts, user));
      HasUser(b, user) ==>
        exists i :: 0 <= i < |b.store| && FirstWithUser(b, user, b.store[i]) && RemovedAt(s, b.store, i)
  {
    var index := FindIndex(b.store, b.accounts, user);
    if 0 <= index {
      assert FirstWithUser(b, user, b.store[index]);
    }
  }

  /** Without a match the index is -1 and the last entry goes, if there is one. */
  lemma SpliceWithoutMatch(b: Bank, user: string)
    requires Valid(b)
    ensures var s := Splice(b.store, FindIndex(b.store, b.accounts, user));
      !HasUser(b, user) ==>
        if |b.store| == 0 then s == [] else RemovedAt(s, b.store, |b.store| - 1)
  {
  }
}
