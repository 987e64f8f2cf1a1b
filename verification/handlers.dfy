/**
 * `updateUI` and the five button handlers as transitions of the bank
 * state. A handler either runs to its end (`Handled`, with `accepted`
 * telling whether its guard passed and `display` holding what it rendered)
 * or stops with the `TypeError` JavaScript raises when it reads a property
 * of an unset `currentAccount`; an aborted handler changes nothing.
 */
module Handlers {
  import opened Wrappers
  import opened Movements
  import opened Render
  import opened Store

  /** The three summary figures and the balance label. */
  datatype Summary = Summary(balance: int, income: int, expense: int, interest: real)

  /** What a handler rendered: the movement rows and, after `updateUI`, the figures. */
  datatype Display = Display(rows: seq<Row>, summary: Option<Summary>)

  datatype Outcome =
    | Handled(bank: Bank, accepted: bool, display: Option<Display>)
    | TypeError

  /** Only `id`'s record differs, and only in its balance cache. */
  predicate CacheOnly(b: Bank, b': Bank, id: AccountId)
    requires id in b.accounts
  {
    && b'.store == b.store
    && b'.current == b.current
    && b'.sorted == b.sorted
    && b'.accounts.Keys == b.accounts.Keys
    && id in b'.accounts
    && b'.accounts[id] == b.accounts[id].(balance := b'.accounts[id].balance)
    && forall x :: x in b.accounts && x != id ==> b'.accounts[x] == b.accounts[x]
  }

  /**
   * `updateUI(acc)`: render the rows unsorted (whatever `sorted` says), the
   * balance, which is also cached on the account, and the summary.
   */
  function UpdateUI(b: Bank, id: AccountId): (r: (Bank, Display))
    requires Valid(b)
    requires id in b.accounts
    ensures Valid(r.0)
    ensures CacheOnly(b, r.0, id)
    ensures r.1.rows == DisplayMovements(b.accounts[id].movements, false)
    ensures r.1.summary.Some?
    ensures var m := b.accounts[id].movements;
      r.1.summary.value == Summary(Sum(m), Income(m), Expense(m), Interest(m, b.accounts[id].interestRate))
    ensures r.0.accounts[id].balance == Some(Sum(b.accounts[id].movements))
    ensures r.0.accounts[id].balance == Some(r.1.summary.value.balance)
    ensures r.1.summary.value.balance == r.1.summary.value.income - r.1.summary.value.expense
    ensures r.1.summary.value.expense >= 0 && r.1.summary.value.interest >= 0.0
  {
    var acc := b.accounts[id];
    var rows := DisplayMovements(acc.movements, false);
    var balance := Sum(acc.movements);
    var b' := b.(accounts := b.accounts[id := acc.(balance := Some(balance))]);
    BalanceIsIncomeMinusExpense(acc.movements);
    SummaryNonNegative(acc.movements);
    InterestNonNegative(acc.movements, acc.interestRate);
    var summary := Summary(balance, Income(acc.movements), Expense(acc.movements),
                           Interest(acc.movements, acc.interestRate));
    (b', Display(rows, Some(summary)))
  }

  /** What a successful `updateUI` of `id` must have left: `b'` is `b` refreshed. */
  predicate ShowsAccount(b: Bank, b': Bank, id: AccountId, d: Option<Display>)
    requires id in b.accounts
  {
    && CacheOnly(b, b', id)
    && b'.accounts[id].balance == Some(Sum(b.accounts[id].movements))
    && d.Some?
    && d.value.rows == DisplayMovements(b.accounts[id].movements, false)
    && var m := b.accounts[id].movements;
       d.value.summary == Some(Summary(Sum(m), Income(m), Expense(m), Interest(m, b.accounts[id].interestRate)))
  }

  // ---------------------------------------------------------------------
  // Login

  /**
   * Login: `currentAccount` is overwritten with the first account named
   * `user` (or unset) BEFORE the pin is compared; only a matching pin shows
   * the account.
   */
  function Login(b: Bank, user: string, pin: Option<int>): (r: Outcome)
    requires Valid(b)
    ensures r.Handled? && Valid(r.bank)
    ensures r.bank.current.Some? <==> HasUser(b, user)
    ensures r.bank.current.Some? ==> FirstWithUser(b, user, r.bank.current.value)
    ensures r.accepted <==> r.bank.current.Some? && pin == Some(b.accounts[r.bank.current.value].pin)
    ensures r.accepted ==> ShowsAccount(b.(current := r.bank.current), r.bank, r.bank.current.value, r.display)
    ensures !r.accepted ==> r.bank == b.(current := r.bank.current) && r.display.None?
  {
    var found := Find(b, user);
    var b1 := b.(current := found);
    if found.Some? && pin == Some(b.accounts[found.value].pin) then
      var (b2, d) := UpdateUI(b1, found.value);
      Handled(b2, true, Some(d))
    else
      Handled(b1, false, None)
  }

  /**
   * Whatever happens at login, no account's movements change and the
   * overall balance stays the same: only `currentAccount` and one cache move.
   */
  lemma LoginKeepsMovements(b: Bank, user: string, pin: Option<int>)
    requires Valid(b)
    ensures var b' := Login(b, user, pin).bank;
      && b'.accounts.Keys == b.accounts.Keys
      && (forall id :: id in b.accounts ==> b'.accounts[id].movements == b.accounts[id].movements)
      && b'.store == b.store
      && Total(b') == Total(b)
  {
    var r := Login(b, user, pin);
    if r.accepted {
      var id := r.bank.current.value;
      TotalUpdate(b.store, b.accounts, id, r.bank.accounts[id]);
      assert r.bank.accounts == b.accounts[id := r.bank.accounts[id]];
    }
  }

  // ---------------------------------------------------------------------
  // Transfer

  /** The transfer guard, stated over the state rather than over the lookup. */
  predicate TransferAllowed(b: Bank, to: string, amount: Option<int>)
    requires Valid(b)
  {
    && amount.Some? && amount.value > 0
    && HasUser(b, to)
    && b.current.Some?
    && b.accounts[b.current.value].balance.Some?
    && b.accounts[b.current.value].balance.value >= amount.value
    && to != b.accounts[b.current.value].username
  }

  /** The two pushes of a transfer: a withdrawal on the sender, a deposit on the receiver. */
  function MoveMoney(accounts: map<AccountId, Account>, from: AccountId, to: AccountId, amount: int): (r: map<AccountId, Account>)
    requires from in accounts && to in accounts && from != to
    ensures r.Keys == accounts.Keys
    ensures r[from] == accounts[from].(movements := accounts[from].movements + [-amount])
    ensures r[to] == accounts[to].(movements := accounts[to].movements + [amount])
    ensures forall x :: x in accounts && x != from && x != to ==> r[x] == accounts[x]
  {
    var sender := accounts[from];
    var accounts1 := accounts[from := sender.(movements := sender.movements + [-amount])];
    accounts1[to := accounts1[to].(movements := accounts1[to].movements + [amount])]
  }

  /**
   * Transfer: the guard reads the CACHED balance of the current account,
   * which only `updateUI` refreshes. On success the sender gets -amount and
   * the receiver +amount, and the sender is shown again.
   */
  function Transfer(b: Bank, to: string, amount: Option<int>): (r: Outcome)
    requires Valid(b)
    ensures r.TypeError? <==> amount.Some? && amount.value > 0 && HasUser(b, to) && b.current.None?
    ensures r.Handled? ==> Valid(r.bank)
    ensures r.Handled? ==> (r.accepted <==> TransferAllowed(b, to, amount))
    ensures r.Handled? && !r.accepted ==> r.bank == b && r.display.None?
  {
    var receiver := Find(b, to);
    if !(amount.Some? && amount.value > 0) || receiver.None? then
      Handled(b, false, None)
    else if b.current.None? then
      TypeError
    else
      var cur := b.current.value;
      var sender := b.accounts[cur];
      var rcv := receiver.value;
      if !(sender.balance.Some? && sender.balance.value >= amount.value)
         || b.accounts[rcv].username == sender.username then
        Handled(b, false, None)
      else
        var (b', d) := UpdateUI(b.(accounts := MoveMoney(b.accounts, cur, rcv, amount.value)), cur);
        Handled(b', true, Some(d))
  }

  /**
   * A granted transfer appends -amount to the sender and +amount to the
   * first account named `to`, two different accounts; no other record,
   * no earlier movement and nothing else of the session changes, and the
   * sender's cache is refreshed.
   */
  lemma TransferMoves(b: Bank, to: string, amount: Option<int>)
    requires Valid(b)
    requires TransferAllowed(b, to, amount)
    ensures var r := Transfer(b, to, amount);
      var s := b.current.value;
      var v := Find(b, to).value;
      && r.Handled? && r.accepted
      && s != v && FirstWithUser(b, to, v)
      && r.bank.accounts[s].movements == b.accounts[s].movements + [-amount.value]
      && r.bank.accounts[v].movements == b.accounts[v].movements + [amount.value]
      && r.bank.accounts[s].balance == Some(Sum(r.bank.accounts[s].movements))
  {
    var s := b.current.value;
    var v := Find(b, to).value;
    var a := amount.value;
    assert b.accounts[v].username == to;
    var (b3, d) := UpdateUI(b.(accounts := MoveMoney(b.accounts, s, v, a)), s);
    assert Transfer(b, to, amount) == Handled(b3, true, Some(d));
  }

  /** Nothing but the two movement lists and the sender's cache changes on a transfer. */
  lemma TransferFrame(b: Bank, to: string, amount: Option<int>)
    requires Valid(b)
    requires TransferAllowed(b, to, amount)
    ensures var r := Transfer(b, to, amount);
      var s := b.current.value;
      var v := Find(b, to).value;
      && r.Handled?
      && r.bank.store == b.store && r.bank.current == b.current && r.bank.sorted == b.sorted
      && r.bank.accounts.Keys == b.accounts.Keys
      && r.bank.accounts[v] == b.accounts[v].(movements := r.bank.accounts[v].movements)
      && r.bank.accounts[s] == b.accounts[s].(movements := r.bank.accounts[s].movements,
                                              balance := r.bank.accounts[s].balance)
      && (forall x :: x in b.accounts && x != s && x != v ==> r.bank.accounts[x] == b.accounts[x])
      && ShowsAccount(b.(accounts := MoveMoney(b.accounts, s, v, amount.value)), r.bank, s, r.display)
  {
    var s := b.current.value;
    var v := Find(b, to).value;
    var a := amount.value;
    assert b.accounts[v].username == to;
    var (b3, d) := UpdateUI(b.(accounts := MoveMoney(b.accounts, s, v, a)), s);
    assert Transfer(b, to, amount) == Handled(b3, true, Some(d));
  }

  /** Moving money between two accounts shifts the store total by what left or entered it. */
  lemma MoveMoneyTotal(ids: seq<AccountId>, accounts: map<AccountId, Account>, from: AccountId, to: AccountId, amount: int)
    requires Stored(ids, accounts) && Distinct(ids)
    requires from in accounts && to in accounts && from != to
    ensures Stored(ids, MoveMoney(accounts, from, to, amount))
    ensures Sum(AllMovements(ids, MoveMoney(accounts, from, to, amount)))
      == Sum(AllMovements(ids, accounts)) - (if from in ids then amount else 0) + (if to in ids then amount else 0)
  {
    var sender := accounts[from];
    var accounts1 := accounts[from := sender.(movements := sender.movements + [-amount])];
    var accounts2 := accounts1[to := accounts1[to].(movements := accounts1[to].movements + [amount])];
    assert MoveMoney(accounts, from, to, amount) == accounts2;
    SumAppend(sender.movements, -amount);
    SumAppend(accounts[to].movements, amount);
    TotalUpdate(ids, accounts, from, accounts1[from]);
    TotalUpdate(ids, accounts1, to, accounts2[to]);
  }

  /**
   * Money is conserved: a transfer from a stored account leaves the overall
   * balance unchanged; a transfer from an account already closed (but still
   * current) creates `amount`, because only the receiver is still counted.
   */
  lemma TransferConserves(b: Bank, to: string, amount: Option<int>)
    requires Valid(b)
    requires TransferAllowed(b, to, amount)
    ensures var b' := Transfer(b, to, amount).bank;
      Valid(b') &&
      Total(b') == Total(b) + (if b.current.value in b.store then 0 else amount.value)
  {
    var s := b.current.value;
    var v := Find(b, to).value;
    var a := amount.value;
    assert b.accounts[v].username == to;
    var accounts2 := MoveMoney(b.accounts, s, v, a);
    var (b3, d) := UpdateUI(b.(accounts := accounts2), s);
    assert Transfer(b, to, amount) == Handled(b3, true, Some(d));
    MoveMoneyTotal(b.store, b.accounts, s, v, a);
    TotalUpdate(b.store, accounts2, s, b3.accounts[s]);
    assert b3.accounts == accounts2[s := b3.accounts[s]];
    assert v in b.store by {
      var k :| 0 <= k < |b.store| && b.store[k] == v && b.accounts[v].username == to
        && forall j :: 0 <= j < k ==> b.accounts[b.store[j]].username != to;
    }
  }

  // ---------------------------------------------------------------------
  // Loan

  /** `movements.some(mov => mov >= amount * 0.1)`, in exact arithmetic. */
  predicate Creditworthy(movements: seq<int>, amount: int)
  {
    exists k :: 0 <= k < |movements| && (movements[k] as real) >= (amount as real) * 0.1
  }

  /**
   * Loan: granted when the amount is positive and some movement is at
   * least a tenth of it; the amount is then deposited on the current
   * account and that account is shown again.
   */
  function Loan(b: Bank, amount: Option<int>): (r: Outcome)
    requires Valid(b)
    ensures r.TypeError? <==> amount.Some? && amount.value > 0 && b.current.None?
    ensures r.Handled? ==> Valid(r.bank)
    ensures r.Handled? ==> (r.accepted <==>
      amount.Some? && amount.value > 0 && b.current.Some? &&
      exists m :: m in b.accounts[b.current.value].movements && 10 * m >= amount.value)
    ensures r.Handled? && !r.accepted ==> r.bank == b && r.display.None?
    ensures r.Handled? && r.accepted ==>
      var id := b.current.value;
      var granted := b.accounts[id].(movements := b.accounts[id].movements + [amount.value]);
      ShowsAccount(b.(accounts := b.accounts[id := granted]), r.bank, id, r.display)
  {
    if !(amount.Some? && amount.value > 0) then
      Handled(b, false, None)
    else if b.current.None? then
      TypeError
    else
      var id := b.current.value;
      var acc := b.accounts[id];
      assert Creditworthy(acc.movements, amount.value) <==>
             exists m :: m in acc.movements && 10 * m >= amount.value by {
        if Creditworthy(acc.movements, amount.value) {
          var k :| 0 <= k < |acc.movements| && (acc.movements[k] as real) >= (amount.value as real) * 0.1;
          assert acc.movements[k] in acc.movements;
        }
      }
      if Creditworthy(acc.movements, amount.value) then
        var granted := acc.(movements := acc.movements + [amount.value]);
        var (b', d) := UpdateUI(b.(accounts := b.accounts[id := granted]), id);
        Handled(b', true, Some(d))
      else
        Handled(b, false, None)
  }

  /** A granted loan adds exactly its amount to the overall balance when the account is stored. */
  lemma LoanAddsAmount(b: Bank, amount: Option<int>)
    requires Valid(b)
    requires b.current.Some? && amount.Some? && amount.value > 0
    requires Creditworthy(b.accounts[b.current.value].movements, amount.value)
    ensures Loan(b, amount).Handled? && Loan(b, amount).accepted
    ensures var b' := Loan(b, amount).bank;
      Valid(b') &&
      Total(b') == Total(b) + (if b.current.value in b.store then amount.value else 0)
  {
    var id := b.current.value;
    var acc := b.accounts[id];
    var granted := acc.(movements := acc.movements + [amount.value]);
    var b1 := b.(accounts := b.accounts[id := granted]);
    var b2 := Loan(b, amount).bank;
    SumAppend(acc.movements, amount.value);
    TotalUpdate(b.store, b.accounts, id, granted);
    TotalUpdate(b.store, b1.accounts, id, b2.accounts[id]);
    assert b2.accounts == b1.accounts[id := b2.accounts[id]];
  }

  // ---------------------------------------------------------------------
  // Close

  /**
   * Close: the typed username and pin are compared with the CURRENT
   * account; on a match the first stored account carrying the current
   * username is spliced out of the store. `findIndex` gives -1 when there is
   * none, and `splice(-1, 1)` then removes the last entry. The current
   * account is never cleared.
   */
  function Close(b: Bank, user: string, pin: Option<int>): (r: Outcome)
    requires Valid(b)
    ensures r.TypeError? <==> b.current.None?
    ensures r.Handled? ==> Valid(r.bank) && r.display.None?
    ensures r.Handled? ==> (r.accepted <==>
      pin == Some(b.accounts[b.current.value].pin) && user == b.accounts[b.current.value].username)
    ensures r.Handled? ==>
      r.bank.accounts == b.accounts && r.bank.current == b.current && r.bank.sorted == b.sorted
    ensures r.Handled? && !r.accepted ==> r.bank.store == b.store
    ensures r.Handled? && r.accepted ==> r.bank.store == RemoveFirstWithUser(b, user)
  {
    if b.current.None? then
      TypeError
    else
      var acc := b.accounts[b.current.value];
      if pin == Some(acc.pin) && user == acc.username then
        Handled(b.(store := RemoveFirstWithUser(b, acc.username)), true, None)
      else
        Handled(b, false, None)
  }

  /** Usernames of stored accounts are unique (true of the sample accounts). */
  predicate UniqueUsernames(b: Bank)
    requires Valid(b)
  {
    forall i, j :: 0 <= i < j < |b.store| ==> b.accounts[b.store[i]].username != b.accounts[b.store[j]].username
  }

  /**
   * With unique usernames, closing a stored current account removes
   * exactly that account: the store shrinks by one and keeps every other
   * entry.
   */
  lemma CloseRemovesCurrent(b: Bank, user: string, pin: Option<int>)
    requires Valid(b) && UniqueUsernames(b)
    requires b.current.Some? && b.current.value in b.store
    requires Close(b, user, pin).Handled? && Close(b, user, pin).accepted
    ensures var s := Close(b, user, pin).bank.store;
      |s| == |b.store| - 1 &&
      multiset(s) == multiset(b.store) - multiset{b.current.value} &&
      b.current.value !in s
  {
    var id := b.current.value;
    var s := Close(b, user, pin).bank.store;
    var k :| 0 <= k < |b.store| && b.store[k] == id;
    assert HasUser(b, user);
    assert s == RemoveFirstWithUser(b, user);
    var i :| 0 <= i < |b.store| && FirstWithUser(b, user, b.store[i]) && RemovedAt(s, b.store, i);
    var i' :| 0 <= i' < |b.store| && b.store[i'] == b.store[i]
      && b.accounts[b.store[i]].username == user
      && forall j :: 0 <= j < i' ==> b.accounts[b.store[j]].username != user;
    assert b.accounts[b.store[k]].username == user;
    assert i == k;
    RemovedAtMultiset(s, b.store, i);
  }

  /**
   * Closing an account that is no longer stored (the current account was
   * already closed) deletes the LAST stored account, whoever it is, when
   * no stored account shares its username.
   */
  lemma CloseAfterCloseDropsLast(b: Bank, pin: Option<int>)
    requires Valid(b)
    requires b.current.Some?
    requires !HasUser(b, b.accounts[b.current.value].username)
    requires |b.store| > 0
    requires pin == Some(b.accounts[b.current.value].pin)
    ensures var r := Close(b, b.accounts[b.current.value].username, pin);
      r.Handled? && r.accepted && r.bank.store == b.store[..|b.store| - 1]
  {
    var r := Close(b, b.accounts[b.current.value].username, pin);
    assert r.bank.store == RemoveFirstWithUser(b, b.accounts[b.current.value].username);
    assert RemovedAt(r.bank.store, b.store, |b.store| - 1);
  }

  // ---------------------------------------------------------------------
  // Sort

  /** Sort: render the current account's movements in the toggled mode and flip `sorted`. */
  function SortClick(b: Bank): (r: Outcome)
    requires Valid(b)
    ensures r.TypeError? <==> b.current.None?
    ensures r.Handled? ==> r.accepted && r.bank == b.(sorted := !b.sorted) && Valid(r.bank)
    ensures r.Handled? ==> r.display.Some? && r.display.value.summary.None?
    ensures r.Handled? ==>
      var movs := b.accounts[b.current.value].movements;
      var rows := r.display.value.rows;
      rows == DisplayMovements(movs, r.bank.sorted) &&
      multiset(Values(rows)) == multiset(movs) &&
      (r.bank.sorted ==> forall j, k :: 0 <= j < k < |rows| ==> rows[j].value >= rows[k].value) &&
      (!r.bank.sorted ==> Values(rows) == Reverse(movs))
  {
    if b.current.None? then
      TypeError
    else
      var movs := b.accounts[b.current.value].movements;
      RenderUnsortedReversed(movs);
      RenderShowsMovements(movs, !b.sorted);
      Handled(b.(sorted := !b.sorted), true, Some(Display(DisplayMovements(movs, !b.sorted), None)))
  }

  /**
   * Two sort clicks restore the state, and the second click shows the
   * ordering that was in force before the first.
   */
  lemma SortTwiceRestores(b: Bank)
    requires Valid(b) && b.current.Some?
    ensures var r1 := SortClick(b);
      var r2 := SortClick(r1.bank);
      r1.Handled? && r2.Handled? && r2.bank == b &&
      r2.display.value.rows == DisplayMovements(b.accounts[b.current.value].movements, b.sorted)
  {
  }

  /**
   * `updateUI` draws the list unsorted but leaves `sorted` alone: after a
   * successful login, transfer or loan, the next sort click renders the
   * order opposite to the flag, not necessarily the sorted one.
   */
  lemma SortAfterRefreshFollowsStaleFlag(b: Bank, user: string, pin: Option<int>)
    requires Valid(b)
    requires Login(b, user, pin).accepted
    requires b.sorted
    ensures var b1 := Login(b, user, pin).bank;
      var r := SortClick(b1);
      r.Handled? && !r.bank.sorted &&
      Values(r.display.value.rows) == Reverse(b1.accounts[b1.current.value].movements)
  {
  }
}
