/**
 * The four hard-coded accounts, `createUsername` run over them once at
 * start-up, and the initial session: nobody logged in, list unsorted.
 */
module Seed {
  import opened Wrappers
  import opened Username
  import opened Store

  /** An account as written in the source, before `createUsername` runs. */
  function Raw(owner: string, movements: seq<int>, interestRate: real, pin: int): Account
  {
    Account(owner, "", movements, interestRate, pin, None)
  }

  /** `createUsername(accs)`: every account gets the handle derived from its owner. */
  function CreateUsernames(accs: seq<Account>): seq<Account>
  {
    seq(|accs|, k requires 0 <= k < |accs| => accs[k].(username := MakeUsername(accs[k].owner)))
  }

  /** `account1` to `account4` as written, before `createUsername`. */
  function RawAccounts(): seq<Account>
  {
    [
      Raw("Jonas Schmedtmann", [200, 450, -400, 3000, -650, -130, 70, 1300], 1.2, 1111),
      Raw("Jessica Davis", [5000, 3400, -150, -790, -3210, -1000, 8500, -30], 1.5, 2222),
      Raw("Steven Thomas Williams", [200, -200, 340, -300, -20, 50, 400, -460], 0.7, 3333),
      Raw("Sarah Smith", [430, 1000, 700, 50, 90], 1.0, 4444)
    ]
  }

  /** Page load: name four accounts 1 to 4, store them in order, derive their handles. */
  function Boot(raw: seq<Account>): Bank
    requires |raw| == 4
  {
    var a := CreateUsernames(raw);
    Bank(map[1 := a[0], 2 := a[1], 3 := a[2], 4 := a[3]], [1, 2, 3, 4], None, false)
  }

  /** The state when the page has loaded: ids 1 to 4 are `account1` to `account4`. */
  function Initial(): Bank
  {
    Boot(RawAccounts())
  }

  // ---------------------------------------------------------------------

  /** The three two-word owners get their two initials as handles. */
  lemma TwoWordHandles()
    ensures MakeUsername("Jonas Schmedtmann") == "js"
    ensures MakeUsername("Jessica Davis") == "jd"
    ensures MakeUsername("Sarah Smith") == "ss"
  {
    assert "Jonas Schmedtmann" == "Jonas" + " " + "Schmedtmann";
    TwoWordUsername("Jonas", "Schmedtmann");
    assert "Jessica Davis" == "Jessica" + " " + "Davis";
    TwoWordUsername("Jessica", "Davis");
    assert "Sarah Smith" == "Sarah" + " " + "Smith";
    TwoWordUsername("Sarah", "Smith");
  }

  /** Booting any four accounts gives a well-formed, logged-out, unsorted state. */
  lemma BootValid(raw: seq<Account>)
    requires |raw| == 4
    ensures Valid(Boot(raw))
    ensures Boot(raw).current.None? && !Boot(raw).sorted
  {
    var b := Boot(raw);
    assert b.store == [1, 2, 3, 4];
    assert Distinct(b.store);
  }

  /** Account k+1 is the k-th raw account with its derived handle. */
  lemma BootAccounts(raw: seq<Account>)
    requires |raw| == 4
    ensures {1, 2, 3, 4} <= Boot(raw).accounts.Keys
    ensures Boot(raw).accounts[1] == raw[0].(username := MakeUsername(raw[0].owner))
    ensures Boot(raw).accounts[2] == raw[1].(username := MakeUsername(raw[1].owner))
    ensures Boot(raw).accounts[3] == raw[2].(username := MakeUsername(raw[2].owner))
    ensures Boot(raw).accounts[4] == raw[3].(username := MakeUsername(raw[3].owner))
  {
    var a := CreateUsernames(raw);
    assert a[0] == raw[0].(username := MakeUsername(raw[0].owner));
    assert a[1] == raw[1].(username := MakeUsername(raw[1].owner));
    assert a[2] == raw[2].(username := MakeUsername(raw[2].owner));
    assert a[3] == raw[3].(username := MakeUsername(raw[3].owner));
  }

  /** Booting raw accounts with the sample owners gives the sample handles. */
  lemma BootHandles(raw: seq<Account>)
    requires |raw| == 4
    requires raw[0].owner == "Jonas Schmedtmann" && raw[1].owner == "Jessica Davis"
    requires raw[2].owner == "Steven Thomas Williams" && raw[3].owner == "Sarah Smith"
    ensures Boot(raw).accounts[1].username == "js"
    ensures Boot(raw).accounts[2].username == "jd"
    ensures Boot(raw).accounts[3].username == "stw"
    ensures Boot(raw).accounts[4].username == "ss"
  {
    BootAccounts(raw);
    TwoWordHandles();
    StevenThomasWilliams();
  }

  /** Booting raw accounts with no cached balance caches nothing. */
  lemma BootUncached(raw: seq<Account>)
    requires |raw| == 4
    requires forall k :: 0 <= k < |raw| ==> raw[k].balance.None?
    ensures forall id :: id in Boot(raw).accounts ==> Boot(raw).accounts[id].balance.None?
  {
    BootAccounts(raw);
    assert Boot(raw).accounts.Keys == {1, 2, 3, 4};
  }

  /**
   * The initial state is well formed, nobody is logged in, the four
   * handles are js, jd, stw and ss, and no balance has been cached yet.
   */
  lemma InitialState()
    ensures Valid(Initial())
    ensures Initial().current.None? && !Initial().sorted
    ensures Initial().accounts[1].username == "js"
    ensures Initial().accounts[2].username == "jd"
    ensures Initial().accounts[3].username == "stw"
    ensures Initial().accounts[4].username == "ss"
    ensures forall id :: id in Initial().accounts ==> Initial().accounts[id].balance.None?
  {
    var raw := RawAccounts();
    assert raw[0].owner == "Jonas Schmedtmann" && raw[1].owner == "Jessica Davis";
    assert raw[2].owner == "Steven Thomas Williams" && raw[3].owner == "Sarah Smith";
    assert forall k :: 0 <= k < |raw| ==> raw[k].balance.None?;
    BootValid(raw);
    BootHandles(raw);
    BootUncached(raw);
  }

  /** The four sample handles, stored in order as accounts 1 to 4. */
  predicate Handles(b: Bank)
  {
    && Valid(b)
    && b.store == [1, 2, 3, 4]
    && {1, 2, 3, 4} <= b.accounts.Keys
    && b.accounts[1].username == "js"
    && b.accounts[2].username == "jd"
    && b.accounts[3].username == "stw"
    && b.accounts[4].username == "ss"
  }

  /** What the page-load state looks like to the handlers. */
  predicate Loaded(b: Bank)
  {
    && Handles(b)
    && b.current.None? && !b.sorted
    && b.accounts[1].pin == 1111
    && b.accounts[2].pin == 2222
    && b.accounts[3].pin == 3333
    && b.accounts[4].pin == 4444
    && b.accounts[4].movements == [430, 1000, 700, 50, 90]
    && (forall id :: id in b.accounts ==> b.accounts[id].balance.None?)
  }

  lemma InitialLoaded()
    ensures Loaded(Initial())
  {
    InitialState();
    var raw := RawAccounts();
    BootAccounts(raw);
    assert Initial().accounts[4].movements == raw[3].movements;
  }
}
