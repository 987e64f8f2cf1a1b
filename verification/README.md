# Bankist, modelled in Dafny

Bankist is a browser demo bank: four hard-coded accounts, a login form, and
buttons to transfer money, request a loan, close the account and sort the
movement list. All state lives in memory. The handlers do the following:

- Login sets `currentAccount` to the account with the typed username. If
  the pin matches, it shows the app and redraws that account.
- Transfer checks a guard, pushes a withdrawal onto the sender's
  `movements` and a deposit onto the receiver's, then redraws the sender.
- Loan checks a guard, pushes the amount onto the current account's
  `movements`, then redraws it.
- Close checks the username and pin, splices an account out of the
  `accounts` array, then hides the app without redrawing.
- Sort has no guard: it redraws the list in the other order and flips
  `sorted`.

This project models the running application (`script.js`, lines 1–232) with
the DOM abstracted away. Each handler is a pure transition over the state:

- `accounts`: every account record, keyed by an identity.
- `store`: the program's `accounts` array, as a sequence of identities.
- `current`: `currentAccount`, which may be unset.
- `sorted`: the sort toggle.

A handler returns `Handled(bank, accepted, display)`, where `display` holds
the rows and figures it rendered. It returns `TypeError` where JavaScript
would read a property of an unset `currentAccount`.

Modules:

- `Movements` (`movements.dfy`): the balance (`calcDisplayBalance`), and the
  income, expense and interest of `calcDisplaySummary`.
- `Username` (`username.dfy`): `createUsername`, i.e. lower-case, split on
  `' '`, first characters, join.
- `Render` (`render.dfy`): `displayMovements` as a list of rows
  `(number, kind, value)`, top to bottom.
- `Store` (`store.dfy`): the account record and state, `find`,
  `findIndex`, `splice(i, 1)`, and the overall balance of every stored
  movement.
- `Handlers` (`handlers.dfy`): `updateUI` and the login, transfer, loan,
  close and sort handlers.
- `Seed` (`seed.dfy`): the four sample accounts, and `createUsername` run
  over them when the page loads.
- `Scenarios` (`scenarios.dfy`): sessions on the sample accounts.
- `Wrappers` (`wrappers.dfy`): `Option`. `None` stands for `undefined` or
  for `NaN`.

The model follows the code, including behaviour that looks accidental:

- A login overwrites `currentAccount` before the pin check. A wrong pin
  therefore makes an undisplayed account current. An unknown handle unsets
  the current account.
- The transfer guard reads the balance cached by the last `updateUI`. An
  account that was never displayed has no cache, so its transfers fail.
- Close never clears `currentAccount`. A second close of an already removed
  account gets `-1` from `findIndex`, and `splice(-1, 1)` then deletes the
  last stored account.
- `updateUI` draws the list unsorted but leaves `sorted` as it was.

Further facts about the code that the model keeps:

- `createUsername` splits on single spaces only, not on any whitespace.
- A failed login changes state: it sets `currentAccount`.
- Closing does not clear the session.
- The transfer guard reads the cached balance.
- Sorting ascending and inserting each row with `afterBegin` puts the
  LARGEST movement on top. The displayed order is therefore descending.
  The ascending order is the array's order, which reads bottom to top.

## Model

| member | source | states |
|---|---|---|
| Movements.Sum | script.js:87 | the balance: the sum of all movements, accumulated left to right from 0 |
| Movements.Income | script.js:96 | the "in" figure: the sum of the positive movements |
| Movements.Expense | script.js:99 | the "out" figure: the sum of the absolute values of the negative movements |
| Movements.BalanceIsIncomeMinusExpense | script.js:86-100 | the balance (sum of all movements) equals the income (sum of deposits) minus the expense (sum of absolute withdrawals), for every list including the empty one |
| Movements.ReduceSum | script.js:87 | the left fold `reduce((acc, mov) => acc + mov, 0)` computes the sum of the movements |
| Movements.SummaryNonNegative | script.js:96-100 | the expense figure is a non-negative magnitude, and so is the income |
| Movements.Deposits | script.js:96 | `filter(mov => mov > 0)` keeps a value iff it occurs in the movements and is positive; multiplicities are in Movements.DepositsCount |
| Movements.DepositsCount | script.js:96 | the deposit filter keeps every positive movement exactly as often as it occurs, and no other value |
| Movements.Withdrawals | script.js:99 | `filter(mov => mov < 0)` keeps a value iff it occurs in the movements and is negative; multiplicities are in Movements.WithdrawalsCount |
| Movements.WithdrawalsCount | script.js:99 | the withdrawal filter keeps every negative movement exactly as often as it occurs, and no other value |
| Movements.Terms | script.js:104 | `map(mov => mov * rate / 100)` has one term per deposit, and term k is deposit k times the rate over 100 |
| Movements.AtLeastOne | script.js:105-108 | `filter(mov => mov >= 1)` keeps a term iff it occurs among the terms and is at least 1; multiplicities are in Movements.AtLeastOneCount |
| Movements.AtLeastOneCount | script.js:105-108 | the at-least-1 filter keeps every term of at least 1 exactly as often as it occurs, and no other value |
| Movements.Interest | script.js:102-109 | the interest figure: the terms of the positive movements that are at least 1, summed; its properties are in the rows that follow, and Movements.SmallInterestDropped with Movements.KeptTermAdded fix how one new movement changes it |
| Movements.KeptTermsFromDeposits | script.js:102-108 | every summed interest term is at least 1 and equals `mov * rate / 100` for some positive movement |
| Movements.InterestNonNegative | script.js:102-109 | the interest is at least the number of summed terms, so it is never negative, whatever the rate |
| Movements.TermsLinear | script.js:102-104 | the terms `mov * rate / 100` of a list, before the at-least-1 filter, add up to the term of the list's sum |
| Movements.InterestAtMostIncomeRate | script.js:102-109 | with a non-negative rate, the interest never exceeds income * rate / 100 |
| Movements.SmallInterestDropped | script.js:105-108 | a deposit whose own interest is below 1 adds nothing to the interest |
| Movements.KeptTermAdded | script.js:102-109 | a deposit whose own interest is at least 1 adds exactly that interest |
| Username.MakeUsername | script.js:118 | the handle: lower-case the owner, split on `' '`, take each part's first character, join; its meaning is stated by Username.UsernameIsLoweredInitials |
| Username.Split | script.js:118 | `split(' ')` yields at least one part, and no part contains a space |
| Username.JoinSplit | script.js:118 | joining the parts of `split(' ')` with single spaces gives back the name |
| Username.SplitCount | script.js:118 | there is one more part than there are spaces |
| Username.UsernameIsLoweredInitials | script.js:115-121 | the handle has one character per non-empty space-separated word of the owner, namely that word's first letter lower-cased; empty parts contribute nothing |
| Username.TwoWordUsername | script.js:118 | a two-word name yields exactly its two lower-cased initials |
| Username.ThreeWordUsername | script.js:115-121 | a three-word name yields exactly its three lower-cased initials, in order |
| Username.StevenThomasWilliams | script.js:93 | "Steven Thomas Williams" gets the handle "stw" |
| Render.KindOf | script.js:70 | a movement is a deposit iff it is positive, and a withdrawal otherwise (zero included) |
| Render.PrependRows | script.js:69-80 | inserting each row `afterBegin` while iterating builds the list with the last iterated movement on top: row k shows movement n-1-k, numbered n-k, and rows already present end up below |
| Render.SortAscending | script.js:67 | the sorted copy is ascending and is a permutation of the movements |
| Render.AscendingUnique | script.js:67 | two ascending permutations of the same values are equal, so the numeric sort has one possible result |
| Render.DisplayMovements | script.js:64-83 | the rows, top to bottom, are the iterated array read backwards, each numbered by its 1-based index in that array and tagged deposit iff the amount is positive; in sort mode the amounts descend top to bottom |
| Render.RenderUnsortedReversed | script.js:64-83 | unsorted, the displayed amounts, top to bottom, are the movements in reverse chronological order |
| Render.RenderShowsMovements | script.js:64-83 | in both modes the displayed amounts are exactly the movements, as a multiset: nothing lost, nothing duplicated |
| Store.FindIndex | script.js:209 | `findIndex` returns -1 iff no stored account has the username; otherwise it returns the first index that has it |
| Store.Find | script.js:145 | `find` returns an account iff some stored account has the username, and then the first such one |
| Store.Splice | script.js:212 | `splice(i, 1)` removes the element at i; a negative i counts from the end (so -1 removes the last one); an i past the end removes nothing, and so does any i on an empty array |
| Store.RemoveFirstWithUser | script.js:209-212 | `splice(findIndex(...), 1)` keeps the state well formed; it removes the first stored account with the username if there is one, and otherwise the last entry (nothing if the store is empty) |
| Store.Total | script.js:564 | the overall balance: the sum of every movement of every stored account, in store order |
| Store.TotalUpdate | script.js:564 | changing one record changes the overall balance by that record's change in sum if it is stored, and not at all otherwise |
| Handlers.UpdateUI | script.js:127-136 | the refresh renders the list unsorted; it shows and caches the sum of the movements as the balance, and shows the income, expense and interest of the movements; it changes nothing else; the balance shown equals income minus expense; expense and interest are non-negative |
| Handlers.Login | script.js:140-163 | the current account becomes the first account with that username, or none, whatever the pin; success iff such an account exists and its pin equals the parsed input; success refreshes that account, caching and showing the sum of its movements as the balance and its income, expense and interest as the summary; failure changes nothing else |
| Handlers.LoginKeepsMovements | script.js:145-161 | login never changes any account's movements, the store or the overall balance |
| Handlers.TransferAllowed | script.js:175 | the transfer guard: a positive amount, an existing receiver, a current account that has a cached balance of at least the amount, and a receiver with a different username |
| Handlers.Transfer | script.js:166-187 | throws iff the amount is positive, the receiver exists and no account is current; succeeds iff amount > 0, the receiver exists, the current account's cached balance is at least the amount, and the receiver's username differs from the current one's; a rejection changes nothing |
| Handlers.TransferMoves | script.js:175-181 | on success, -amount is appended to the sender and +amount to the first account with the receiver's username, which is a different account; the sender's cached balance becomes the sum of its new movements |
| Handlers.TransferFrame | script.js:175-181 | on success, the store, session and sort flag are unchanged, the receiver's record changes only in its movements, the sender's only in its movements and cached balance, every other account is untouched, and the sender is shown refreshed: its new rows unsorted, balance, income, expense and interest |
| Handlers.MoveMoney | script.js:177-178 | the two pushes append -amount to the sender and +amount to a different receiver, keep the key set, and leave every other record alone |
| Handlers.MoveMoneyTotal | script.js:175-178 | the two pushes shift the overall balance by -amount if the sender is stored and by +amount if the receiver is |
| Handlers.TransferConserves | script.js:175-178 | a successful transfer from a stored account leaves the overall balance unchanged; one from an already closed current account adds the amount |
| Handlers.Creditworthy | script.js:194 | the loan test: some movement is at least a tenth of the amount, in exact arithmetic |
| Handlers.Loan | script.js:190-201 | throws iff the amount is positive and no account is current; granted iff amount > 0 and some movement m has 10 * m >= amount; a grant appends exactly the amount to the current account and refreshes it, showing its new rows, balance, income, expense and interest; a refusal changes nothing |
| Handlers.LoanAddsAmount | script.js:193-195 | a loan of a positive amount to a current account with a movement of at least a tenth of it is granted, and raises the overall balance by the amount when the account is stored |
| Handlers.Close | script.js:203-222 | throws iff no account is current; accepted iff the pin and username match the current account; on success the store becomes `splice(findIndex(...), 1)` of that username (see Store.RemoveFirstWithUser); a refusal leaves the store alone; records, the current account and the sort flag never change, and nothing is rendered |
| Handlers.CloseRemovesCurrent | script.js:207-212 | with unique usernames, closing a stored current account removes exactly that entry, and the store shrinks by one |
| Handlers.CloseAfterCloseDropsLast | script.js:209-212 | when no stored account shares the current account's username (for instance because it was already closed), closing it removes the last stored entry |
| Handlers.SortClick | script.js:224-232 | throws iff no account is current; otherwise it flips `sorted` and changes nothing else, showing the movement list rendered in the new mode: the same amounts as a multiset, descending if now sorted and reversed if not |
| Handlers.SortTwiceRestores | script.js:226-231 | two sort clicks restore the state, and the second shows the ordering in force before the first |
| Handlers.SortAfterRefreshFollowsStaleFlag | script.js:127-136 | after a successful login with `sorted` set, the next click turns sorting off and shows the chronological order reversed |
| Seed.RawAccounts | script.js:8-36 | the four accounts as written, in order: owner, movements, interest rate and pin, no username and no cached balance yet |
| Seed.CreateUsernames | script.js:115-121 | `createUsername` sets each record's username to MakeUsername of its owner and leaves the rest; stated per record by Seed.BootAccounts |
| Seed.TwoWordHandles | script.js:8-31 | "Jonas Schmedtmann", "Jessica Davis" and "Sarah Smith" get the handles "js", "jd" and "ss" |
| Seed.BootAccounts | script.js:113-123 | `createUsername` run over the four records gives each one the handle made from its owner and changes nothing else in it |
| Seed.BootHandles | script.js:113-123 | any four records owned by the four sample owners get the handles js, jd, stw and ss, in store order |
| Seed.BootUncached | script.js:8-36 | loading records that carry no cached balance leaves every account uncached |
| Seed.BootValid | script.js:36 | the loaded state is well formed, with nobody logged in and sorting off |
| Seed.InitialState | script.js:8-36 | after page load the state is well formed, nobody is logged in, the handles are js, jd, stw and ss, and no balance is cached |
| Scenarios.LoginSarah | script.js:145-161 | "ss" with pin 4444 logs in account 4 and caches its balance of 2270 |
| Scenarios.LoanGranted | script.js:194-195 | a loan of 100 to account 4 is granted and appended |
| Scenarios.LoanRefused | script.js:194 | a loan of 20000 to account 4 is refused and changes nothing |
| Scenarios.CloseSteven | script.js:207-212 | closing account 3 leaves the store [1, 2, 4], and account 3 stays current |
| Scenarios.CloseStevenAgain | script.js:209-212 | closing account 3 again removes account 4 |
| Scenarios.WrongPinLeavesUncachedCurrent | script.js:145-148 | a wrong pin for "jd" makes account 2 current, undisplayed, and its transfers fail |
| Scenarios.UnknownUserUnsetsCurrent | script.js:145-148 | an unknown handle unsets the current account, and the next sort click throws |

## Left out

- DOM reads and writes: labels, templates, the `€` suffix, the opacity of the app, `blur`, clearing inputs, `preventDefault`, and the welcome text (first word of the owner). Handlers return the rendered rows and figures instead.
- Event-listener wiring: each listener is a transition function.
- `console.log` calls.
- `Number(...)` parsing: amounts and pins arrive already parsed, as `Option<int>`, with `None` for `NaN`. Fractional amounts, `Infinity` and `-0` are not modelled.
- IEEE floating point: interest rates (1.2, 1.5, 0.7) and interest are exact reals, and the loan test `mov >= amount * 0.1` is exact. Float artefacts such as `30 * 0.1` are not modelled.
- `toLowerCase` is modelled for ASCII letters only. Unicode case mapping is not modelled.
- Integer sums are exact. JavaScript numbers are doubles, so the sums of `reduce` (lines 87, 96, 99 and 564) are exact only below 2^53. Repeated loans, each up to ten times the largest movement, can pass that bound. `Movements.Sum`, `Movements.BalanceIsIncomeMinusExpense`, `Handlers.TransferConserves` and the other balance properties therefore hold for the exact sums, not for rounded doubles.
- Strings are sequences of Unicode scalar values. `name[0]` (line 118) reads one UTF-16 code unit, so for a name that starts with a character outside the Basic Multilingual Plane the program takes half a surrogate pair, while the model takes the whole character.
- The lecture section (lines 237–605) is not part of the model, except that line 564's overall balance is the conservation measure `Store.Total`.
- The unused `labelDate` and `labelTimer` elements.
