/** Sessions on the sample accounts, run through the handlers. */
module Scenarios {
  import opened Wrappers
  import opened Store
  import opened Handlers
  import opened Seed
  import Movements

  /** Looking up a sample handle finds its own account. */
  lemma FindSample(b: Bank, id: AccountId)
    requires Handles(b) && id in {1, 2, 3, 4}
    ensures Find(b, b.accounts[id].username) == Some(id)
  {
    var user := b.accounts[id].username;
    var k := id - 1;
    assert b.store[k] == id;
    assert HasUser(b, user);
    var found := Find(b, user).value;
    var i :| 0 <= i < |b.store| && b.store[i] == found && b.accounts[found].username == user
      && forall j :: 0 <= j < i ==> b.accounts[b.store[j]].username != user;
    assert i == k;
  }

  /** Account 4 (Sarah Smith) is current with its original movements. */
  predicate SarahShown(b: Bank)
  {
    && Handles(b)
    && b.current == Some(4)
    && b.accounts[4].movements == [430, 1000, 700, 50, 90]
  }

  /** Logging in as "ss" with pin 4444 shows account 4 and caches its balance 2270. */
  lemma LoginSarah(b: Bank)
    requires Loaded(b)
    ensures var r := Login(b, "ss", Some(4444));
      r.accepted && SarahShown(r.bank) && r.bank.accounts[4].balance == Some(2270)
  {
    FindSample(b, 4);
    SarahBalance();
  }

  lemma SarahBalance()
    ensures Movements.Sum([430, 1000, 700, 50, 90]) == 2270
  {
    Movements.SumAppend([], 430);
    assert [] + [430] == [430];
    Movements.SumAppend([430], 1000);
    assert [430] + [1000] == [430, 1000];
    Movements.SumAppend([430, 1000], 700);
    assert [430, 1000] + [700] == [430, 1000, 700];
    Movements.SumAppend([430, 1000, 700], 50);
    assert [430, 1000, 700] + [50] == [430, 1000, 700, 50];
    Movements.SumAppend([430, 1000, 700, 50], 90);
    assert [430, 1000, 700, 50] + [90] == [430, 1000, 700, 50, 90];
  }

  /** Sarah asks for 100: granted, since 1000 is at least a tenth of it, and 100 is appended. */
  lemma LoanGranted(b: Bank)
    requires SarahShown(b)
    ensures var r := Loan(b, Some(100));
      r.Handled? && r.accepted && r.bank.accounts[4].movements == [430, 1000, 700, 50, 90, 100]
  {
    assert 1000 in b.accounts[4].movements;
  }

  /** Sarah asks for 20000: refused, as no movement reaches 2000; nothing changes. */
  lemma LoanRefused(b: Bank)
    requires SarahShown(b)
    ensures Loan(b, Some(20000)) == Handled(b, false, None)
  {
    var m := b.accounts[4].movements;
    assert forall x :: x in m ==> 10 * x < 20000;
  }

  /** Account 3 closes itself: the store loses exactly that entry; it stays current. */
  lemma CloseSteven(b: Bank)
    requires Handles(b) && b.current == Some(3) && b.accounts[3].pin == 3333
    ensures var r := Close(b, "stw", Some(3333));
      r.Handled? && r.accepted && r.bank.store == [1, 2, 4] && r.bank.current == Some(3)
  {
    var r := Close(b, "stw", Some(3333));
    var k := FindIndex(b.store, b.accounts, "stw");
    assert b.accounts[b.store[2]].username == "stw";
    assert k == 2;
    assert r.bank.store == RemoveFirstWithUser(b, "stw") == Splice(b.store, 2);
  }

  /**
   * Closing again with the same credentials, after account 3 is gone,
   * removes the LAST stored account (account 4) through `splice(-1, 1)`.
   */
  lemma CloseStevenAgain(b: Bank)
    requires Valid(b) && b.store == [1, 2, 4] && b.current == Some(3) && {1, 2, 3, 4} <= b.accounts.Keys
    requires b.accounts[3].username == "stw" && b.accounts[3].pin == 3333
    requires b.accounts[1].username == "js" && b.accounts[2].username == "jd" && b.accounts[4].username == "ss"
    ensures var r := Close(b, "stw", Some(3333));
      r.Handled? && r.accepted && r.bank.store == [1, 2]
  {
    assert !HasUser(b, "stw");
    assert RemovedAt(Close(b, "stw", Some(3333)).bank.store, b.store, 2);
  }

  /**
   * A wrong pin for "jd" still makes account 2 current, undisplayed: its
   * balance was never cached, so it cannot transfer, whatever it holds.
   */
  lemma WrongPinLeavesUncachedCurrent(b: Bank)
    requires Handles(b) && b.accounts[2].pin == 2222 && b.accounts[2].balance.None?
    ensures var r := Login(b, "jd", Some(1234));
      && !r.accepted && r.bank.current == Some(2)
      && Transfer(r.bank, "ss", Some(100)) == Handled(r.bank, false, None)
  {
    FindSample(b, 2);
    var b2 := Login(b, "jd", Some(1234)).bank;
    assert HasUser(b2, "ss") by { assert b2.store[3] == 4; }
  }

  /** An unknown handle unsets the current account, and the next sort click throws. */
  lemma UnknownUserUnsetsCurrent(b: Bank)
    requires Handles(b)
    ensures var r := Login(b, "xx", Some(4444));
      && !r.accepted && r.bank.current.None?
      && SortClick(r.bank).TypeError?
  {
    assert !HasUser(b, "xx");
  }
}
