# pfm-go: verified model

This project models the parts of pfm-go, a personal-finance backend written in Go, whose promises
range over all inputs or whole runs, and proves those promises.

- **Money text** (`GoText`, `MoneyText`, `MoneyArithmetic`): the printer and the parser of minor-unit
  amounts, thousands grouping, checked addition, and the division of an amount into shares.
- **Double-entry ledger** (`Ledger`, `LedgerHistory`, `LedgerRepository`, `Paging`): posting in memory
  with int64 wrap-around, the balance cache, conservation, history and its two paging orders.
- **SQL ledger** (`SqlLedger`, `SqlStreams`, `SqlInterleaving`, `SqlRepository`, `SqlAtomicity`): the
  statements one post sends, when and how every interleaving of concurrent posts succeeds, and the
  rollback of a failed post.
- **Transactor** (`Transactor`, `AtomicClients`): `RunAtomic` with nested calls, errors, panics and
  failing begins and commits, and its two multi-row clients.
- **Households** (`Households`, `HouseholdRepository`): membership with tombstones and the last-admin rule.
- **Accounts, users, login** (`Accounts`, `Users`, `UserRepository`, `Versions`): secondary indexes,
  optimistic concurrency, passwords and token lifetimes.

Each operation is a function on values; where the source updates something in place, a class with the
source's fields has methods that are proved equal to that function on the old state. Whole-run results
are lemmas over sequences of calls that start from empty stores.

Conventions. `uuid.New()` and database-assigned ids are parameters that a run never repeats, and clock
readings are parameters. Go's `int` versions and times are unbounded integers; every int64 amount and
every int32 SQL parameter has its width. A `char` of a money string stands for one byte.

Where the code and its comments disagree, the model follows the code:

- `PostTransaction` (internal/domain/ledger/ledger_logic.go:27-29) promises that total debits equal total
  credits, but lines 70-82 compare sums that wrap in int64: four credits of 2^62 and no debit are accepted
  (`UnbalancedPostIsAccepted`). `BalancedIsExact` says when the comparison means equality.
- `Split` (internal/platform/money/split.go:4) is documented to add the remainder to the first share;
  it adds 1 to each of the first `remainder` shares, and nothing when the amount is negative
  (`NegativeSplitLosesRemainder`).
- `Sub` (internal/platform/money/arithmetic.go:19-21) negates in int64, so for the least int64 it is
  wrong for every first operand; `SubIsDifference` gives the exact condition.
- The negation in `formatAmount` (internal/platform/money/format.go:26) wraps for the least int64 and
  prints two minus signs; the parser nevertheless reads that text back, so `RoundTrip` has no exception,
  while canonical text does (`CanonicalUnlessLeast`).
- `GetTransactionHistory` of the SQL repository (internal/adapter/postgres/ledger_repo.go:187-195)
  truncates its paging parameters to int32; `SqlPagesExactly` says when paging is still complete, and
  `HugePagesLoseRows` is an input that loses a row.
- The in-memory history (internal/adapter/postgres/fake_ledger_repo.go:145-153) demands a matching entry even
  for `uuid.Nil`, where the SQL history (internal/adapter/postgres/ledger_repo.go:171-208) keeps every
  transaction; `PagingOrdersAgree` says exactly when the two show the same.
- `RunAtomic` has no savepoints: writes of an inner call that failed are committed if the outer
  callback swallows the error (`CaughtInnerWritesAreKept`).

## Model

| member | source | states |
|---|---|---|
| MoneyText.RoundTrip | internal/platform/money/parse.go:29-70 | for every int64, the least one included, and every admissible separator pair, parsing the printed text succeeds and returns exactly that amount |
| MoneyText.RecombinedWithoutOverflow | internal/platform/money/parse.go:65 | neither whole*100 nor whole*100+fraction of a printed amount leaves int64 |
| MoneyText.FormattedIsCanonical | internal/platform/money/format.go:23-39 | printed text of every amount but the least is canonical, of the same magnitude, with a minus sign exactly for negative amounts |
| MoneyText.CanonicalUnlessLeast | internal/platform/money/format.go:24-32 | the printed text of an amount is canonical if and only if the amount is not the least int64 |
| MoneyText.CanonicalInverse | internal/platform/money/parse.go:29-70 | a canonical text prints back from its parsed amount exactly when its magnitude is at most the largest int64, and then parses to its value |
| MoneyText.GroupedShape | internal/platform/money/format.go:41-67 | grouping inserts (n-1)/3 separators, one before every third digit from the right and never first, and deleting them restores the digits |
| MoneyText.GroupingIsUnique | internal/platform/money/format.go:57-64 | no other text with separators in those positions has the same digits |
| MoneyText.GroupedFromLeft | internal/platform/money/format.go:57-64 | the left-to-right loop emits the right-to-left grouping |
| MoneyText.SwappedSeparators | internal/platform/money/format.go:7-21 | exchanging the separators of a currency exchanges the two characters in every printed text |
| MoneyText.AddThousandsSeparator | internal/platform/money/format.go:41-67 | the two loops group what precedes the first decimal separator and keep the rest |
| MoneyText.FormatAmount | internal/platform/money/format.go:23-39 | the printer's steps produce the specified text |
| MoneyText.FormatUSD | internal/platform/money/format.go:7-9 | USD text parses back to the amount and is canonical |
| MoneyText.FormatBRL | internal/platform/money/format.go:13-15 | BRL text is the USD text with separators exchanged and parses back |
| MoneyText.FormatEUR | internal/platform/money/format.go:19-21 | EUR text is the USD text with separators exchanged and parses back |
| MoneyText.ParseAnswer | internal/platform/money/parse.go:39-70 | a text without decimal separator is a number of units, one with a single separator is units and exactly two decimals; which error a bad part gives |
| MoneyText.ParseRefuses | internal/platform/money/parse.go:30-46 | exactly the empty text is refused as empty and exactly the texts with two or more decimal separators as malformed |
| MoneyText.WholeNumberParses | internal/platform/money/parse.go:39-65 | a whole number without decimals, grouped or not and with or without a minus sign, is read as that many units |
| GoText.ParseIntIsExact | internal/platform/money/parse.go:48-63 | ParseInt accepts one optional sign and then at least one digit with a value in int64, and returns that value |
| GoText.ToLowerIsCaseless | internal/adapter/postgres/fake_user_repo.go:71 | two texts are equal in lower case exactly if they agree letter by letter ignoring ASCII case |
| GoText.ParseIntReadsPadded | internal/platform/money/parse.go:55-63 | a %02d field of one sign and digits is read back by ParseInt and has two columns |
| GoText.TextOfValue | internal/platform/money/parse.go:48 | digits without leading zeros are the only text of their value |
| MoneyArithmetic.Add | internal/platform/money/arithmetic.go:9-17 | the exact sum if it fits int64 and an overflow error otherwise |
| MoneyArithmetic.SubIsDifference | internal/platform/money/arithmetic.go:19-21 | Sub is checked subtraction if and only if the second operand is not the least int64 |
| MoneyArithmetic.Split | internal/platform/money/split.go:6-20 | the array filled by the two loops holds the specified shares |
| MoneyArithmetic.SharesAreExact | internal/platform/money/split.go:6-20 | the shares add up to the amount if and only if it is non-negative or divides evenly; otherwise the remainder is lost |
| MoneyArithmetic.NegativeSharesAreEqual | internal/platform/money/split.go:6-20 | the shares of a negative amount are all the same: the amount over n rounded towards zero |
| MoneyArithmetic.NegativeSplitLosesRemainder | internal/platform/money/split.go:13-17 | -1 split in two gives two shares of 0 |
| MoneyArithmetic.OnlyEvenDivision | internal/platform/money/split.go:3-20 | for a non-negative amount the shares are the only non-increasing sequence of that length with differences at most 1 and that sum |
| MoneyArithmetic.SharesAddBack | internal/platform/money/arithmetic.go:9-21 | adding the shares with the checked Add never overflows and returns the amount, from which Sub leaves 0 |
| Ledger.CacheAgreement | internal/adapter/postgres/fake_ledger_repo.go:81-120 | after any run the balance of every account is the int64 value of credits minus debits over all stored entries |
| Ledger.BalancesReplayEntries | internal/adapter/postgres/fake_ledger_repo.go:93-99 | the balance map is what replaying all stored entries produces |
| Ledger.Conservation | internal/adapter/postgres/fake_ledger_repo.go:58-100 | after any run, with any inputs, all balances sum to 0 modulo 2^64 |
| Ledger.ConservationIsExact | internal/adapter/postgres/fake_ledger_repo.go:58-100 | for any run through either layer and any turnover: a balance is exact if and only if the account's own credits minus debits fit int64; the total is all credits minus all debits less what the balances lost by wrapping, hence 0 if and only if those agree, and nothing is lost while every account fits |
| Ledger.FittingBalancesConserve | internal/adapter/postgres/fake_ledger_repo.go:93-99 | truly balanced posts keep the total at exactly 0 while every account's credits minus debits fit int64, whatever the turnover |
| Ledger.ExactConservation | internal/domain/ledger/ledger_logic.go:61-82 | the special case of posts through the logic layer with total credits and total debits within int64: total exactly 0, every balance exact |
| Ledger.WrappedBalancesLoseTotal | internal/domain/ledger/ledger_logic.go:71-82 | one accepted post whose credits and debits both reach 2^63 leaves a total of -2^64 |
| Ledger.BalancedIsExact | internal/domain/ledger/ledger_logic.go:70-82 | the balance test passes exactly when credits and debits differ by a multiple of 2^64, and then they are equal if and only if they differ by less than 2^64 |
| Ledger.UnbalancedPostIsAccepted | internal/domain/ledger/ledger_logic.go:61-82 | four credits of 2^62 and no debit pass validation and the balance test |
| Ledger.VerdictIsExact | internal/domain/ledger/ledger_logic.go:52-82 | a post is accepted exactly if, through the logic layer, it has a description, a line and only positive amounts, and its credits and debits agree modulo 2^64; which defect is reported |
| Ledger.TransferIsAccepted | internal/domain/ledger/ledger_logic.go:52-82 | a described debit and credit of one positive amount is accepted |
| LedgerHistory.HistoryShowsReceipts | internal/adapter/postgres/fake_ledger_repo.go:136-175 | the unpaged history is exactly the household's matching receipts, once each, in posting order, with the entries each post returned |
| LedgerHistory.HistoryTellsPosts | internal/adapter/postgres/fake_ledger_repo.go:72-102 | the unpaged history has one record for each acceptable post to the household with a line that the filter admits, in posting order, with that post's household, caller, description, date, lines and ids |
| LedgerHistory.ReceiptsBalance | internal/domain/ledger/ledger_logic.go:70-82 | every record of the history has equal int64 debit and credit sums, equal debits and credits if and only if they differ by less than 2^64, and at least one entry if posted through the logic layer |
| LedgerHistory.UnfilteredShowsHousehold | internal/adapter/postgres/fake_ledger_repo.go:136-153 | without an account filter a receipt is shown if and only if it is of the household and has an entry |
| LedgerRepository.SumsMatch | internal/adapter/postgres/fake_ledger_repo.go:58-68 | the accumulating loop decides equality of the wrapped debit and credit sums |
| LedgerRepository.FakeLedgerRepository.PostTransaction | internal/adapter/postgres/fake_ledger_repo.go:47-103 | the new state and the returned record are those of the specified step; a rejected post changes nothing |
| LedgerRepository.FakeLedgerRepository.StoreEntries | internal/adapter/postgres/fake_ledger_repo.go:81-100 | the loop appends one entry per line and applies every line to the balances in order |
| LedgerRepository.FakeLedgerRepository.GetBalance | internal/adapter/postgres/fake_ledger_repo.go:108-120 | the cached balance, 0 for an account never posted to |
| LedgerRepository.FakeLedgerRepository.GetTransactionHistory | internal/adapter/postgres/fake_ledger_repo.go:125-176 | the loops select, join and page as specified; a negative offset below the result count panics |
| LedgerRepository.LedgerLogic.PostTransaction | internal/domain/ledger/ledger_logic.go:52-99 | validation in the source's order, then the repository's step |
| LedgerRepository.MatchingIsFilter | internal/adapter/postgres/fake_ledger_repo.go:145-164 | the selected records are, in order, those of the household's transactions that have an entry matching the filter, for uuid.Nil any entry |
| Paging.SlicePagesPartition | internal/adapter/postgres/fake_ledger_repo.go:166-173 | pages of any size at consecutive offsets concatenate to the filtered results |
| Paging.SlicePageIsWindow | internal/adapter/postgres/fake_ledger_repo.go:166-175 | a page is the window of at most `limit` results from the offset on, all of them without a positive limit; it panics exactly for a negative offset |
| Paging.SqlPageIsWindow | internal/adapter/postgres/ledger_repo.go:187-195 | within int32 the SQL page is the same window, with 50 rows where no positive limit is given, and fails exactly for a negative offset |
| Paging.SqlPagesPartition | internal/adapter/postgres/ledger_repo.go:187-208 | under the int32 condition, pages filtered after fetching concatenate to the filtered list |
| Paging.SqlPagesExactly | internal/adapter/postgres/ledger_repo.go:187-195 | unfiltered paging yields the whole list if and only if that condition holds |
| Paging.HugePagesLoseRows | internal/adapter/postgres/ledger_repo.go:187-195 | with a page size of 2^32 + 1 all pages of a two-row list show its first row only |
| SqlLedger.ExecutionEffect | internal/adapter/postgres/ledger.sql.go:15-32 | after successful statements an active account has moved by exactly its own deltas, one version each |
| SqlLedger.HeadroomIsExact | internal/adapter/postgres/ledger.sql.go:15-22 | all orders of the statements succeed if and only if every account has room for its upward total, its downward total and its updates |
| SqlLedger.SumOfPermutation | internal/adapter/postgres/ledger.sql.go:15-22 | what relative updates add up to does not depend on their order |
| SqlStreams.InterleavingHeadroomIsExact | internal/adapter/postgres/ledger.sql.go:15-22 | every interleaving of any statement streams succeeds if and only if the constraints admit each new entry and each account has room for the sum of the streams' highest and of their lowest running totals and for its updates |
| SqlStreams.SerialIsInterleaving | internal/adapter/postgres/ledger_repo.go:51-142 | running the posts one after another in the listed order is one of the interleavings |
| SqlInterleaving.AnyInterleaving | internal/adapter/postgres/ledger_repo.go:89-131 | under exactly that room every interleaving of the statements of any posts succeeds and leaves each active account at its old balance plus its net credits, its version grown by the entries naming it |
| SqlInterleaving.TotalsFitIsRoom | internal/adapter/postgres/ledger_repo.go:89-131 | credit and debit totals of all posts within the columns give that room |
| SqlInterleaving.AnySerialOrder | internal/adapter/postgres/ledger_repo.go:89-131 | for every permutation of the posts, running them one after another succeeds and ends with the same accounts and rows, up to row order, as any interleaving |
| SqlInterleaving.InterleavingsAgree | internal/adapter/postgres/ledger_repo.go:89-131 | two interleavings of the same posts end with the same accounts and the same rows up to order |
| SqlInterleaving.BalanceColumnFollowsEntries | internal/domain/ledger/ledger.go:66-68 | no interleaving changes the difference between a balance and the credits minus debits of its stored entries |
| SqlInterleaving.PostSucceedsExactly | internal/adapter/postgres/ledger_repo.go:77-142 | alone, all statements of a post succeed if and only if every line is a positive debit or credit on an existing account and every account has room for the running totals and its version |
| SqlInterleaving.PostEffect | internal/adapter/postgres/ledger_repo.go:77-142 | a successful post adds its transaction row and entries with the caller's data, moves each active account by its credits minus debits with one version per line, and touches no other account |
| SqlRepository.Queries.InsertTransaction | internal/adapter/postgres/ledger.sql.go:81-112 | appends the row |
| SqlRepository.Queries.InsertLedgerEntry | internal/adapter/postgres/ledger.sql.go:48-79 | appends the row unless a constraint rejects it |
| SqlRepository.Queries.AdjustAccountBalance | internal/adapter/postgres/ledger.sql.go:15-32 | relative update of an active account, no effect on any other, error when a column would overflow |
| SqlRepository.Queries.ListTransactionIDsForAccount | internal/adapter/postgres/ledger.sql.go:148-173 | exactly the ids of transactions with an entry of the account |
| SqlRepository.Queries.ListEntriesForTransaction | internal/adapter/postgres/ledger.sql.go:114-146 | exactly the entries of one transaction, in insertion order |
| SqlRepository.LedgerRepo.PostTransaction | internal/adapter/postgres/ledger_repo.go:51-142 | sends nothing for an unbalanced post, otherwise exactly its statements up to the first rejected one |
| SqlRepository.LedgerRepo.GetTransactionHistory | internal/adapter/postgres/ledger_repo.go:164-245 | over any order of exactly the household's stored rows: pages with int32 parameters and default limit 50, then filters and joins; every record shown is a stored transaction of the household with its stored entries |
| SqlRepository.PagingOrdersAgree | internal/adapter/postgres/ledger_repo.go:187-241 | filter-then-page in memory and page-then-filter in SQL show the same records over all pages if and only if an account is given or every transaction of the household has an entry |
| SqlAtomicity.PostIsAtomic | internal/domain/ledger/ledger_logic.go:84-98 | through RunAtomic the tables hold all rows and balance changes of a post or none |
| Transactor.OutermostIsAtomic | internal/platform/database/transactor.go:84-128 | the outermost call applies every write in program order and returns nil, or leaves the database unchanged; it is nil exactly if begin, callback and commit succeed, and otherwise ends with the callback's own error or panic or a begin or commit failure |
| Transactor.NestedCallsAreInvisible | internal/platform/database/transactor.go:75-88 | erasing all nested RunAtomic calls of any program changes neither outcome nor database |
| Transactor.CaughtInnerWritesAreKept | internal/platform/database/transactor.go:85-88 | the writes of a failed inner call whose error is caught are committed with the rest |
| Transactor.WorkingFollowsTrace | internal/platform/database/transactor.go:49-57 | inside a transaction a program changes only the working copy, by exactly its writes |
| Transactor.PoolFollowsTrace | internal/platform/database/transactor.go:49-57 | outside any transaction a program without RunAtomic applies exactly its writes to the database itself, those before an error or a panic included |
| Transactor.PanicRollsBack | internal/platform/database/transactor.go:100-106 | a panic passes every error handler, rolls back and is raised again |
| Transactor.FailedTransactionIsCaught | internal/platform/database/transactor.go:93-125 | a handler around a transaction that failed at begin, in its callback or at commit runs on the unchanged database |
| Transactor.PostgresTransactor.Execute | internal/platform/database/transactor.go:49-57 | statements act on the open transaction if there is one and on the pool otherwise |
| Transactor.PostgresTransactor.RunAtomic | internal/platform/database/transactor.go:84-128 | joins an open transaction; otherwise begins, runs, and commits or rolls back |
| AtomicClients.BootstrapAllOrNothing | cmd/pfm-seed/seeder.go:106-147 | after any runs failing anywhere, at most one succeeded; before it there is no row, after it exactly its user, household and ADMIN membership |
| AtomicClients.SeededForGood | cmd/pfm-seed/seeder.go:107-113 | after a success every run whose check succeeds returns AlreadySeeded and none changes anything |
| AtomicClients.SeedIsAllOrNothing | cmd/pfm-seed/seeder.go:106-147 | one run succeeds exactly if no step, begin or commit fails on an empty database; which error a failed check or hash gives |
| AtomicClients.RunSeeder | cmd/pfm-seed/seeder.go:106-147 | the method computes the specified run |
| AtomicClients.CreateHouseholdUser | internal/domain/household/member_logic.go:46-71 | user and MEMBER membership are both written or neither is, with the exact condition and the first refused step as the error |
| Households.NeverWithoutAdmin | internal/domain/household/household_logic.go:92-153 | after any calls every household ever created has an active ADMIN membership |
| Households.StepKeepsGoverned | internal/adapter/postgres/fake_household_repo.go:208-252 | every call keeps an admin in each created household and no tombstone or admin elsewhere |
| Households.ReaddedAdminIsMember | internal/adapter/postgres/fake_household_repo.go:219-232 | a removed admin added back as MEMBER has only that role, and all other admins remain |
| Households.ListedIffMember | internal/adapter/postgres/fake_household_repo.go:139-181 | a household is listed for a user exactly if it is active and the user's membership can be found |
| Households.AddMemberAnswer | internal/domain/household/household_logic.go:92-109 | succeeds exactly for a calling active admin and a user who is not an active member, whatever the role; the membership is then found as given and nothing else changes; any error changes nothing |
| Households.RemoveMemberAnswer | internal/domain/household/household_logic.go:113-153 | succeeds exactly for a calling active admin unless the target is the one admin; the membership is then not found and nothing else changes; any error changes nothing |
| Households.CreateAnswer | internal/domain/household/household_logic.go:52-71 | a name of 2 to 100 characters creates the household with its creator as only member and admin |
| Households.CreateUserAnswer | internal/domain/household/member_logic.go:46-71 | a user just created becomes a MEMBER unless already active there |
| Households.DeactivateAnswer | internal/domain/household/household_logic.go:171-176 | never fails, removes only that household and no membership |
| Households.RenameAnswer | internal/domain/household/household_logic.go:156-168 | accepted exactly for a valid name and an active household whose accepted renamings number the expected version minus one |
| Households.MembershipFollowsCalls | internal/adapter/postgres/fake_household_repo.go:164-252 | after any calls a membership is found exactly as the accepted calls left it, with role and inviter |
| Households.HouseholdFollowsCalls | internal/adapter/postgres/fake_household_repo.go:84-299 | after any calls a household has the latest accepted name, its editor and one version per accepted renaming |
| HouseholdRepository.CountIsExact | internal/domain/household/household_logic.go:126-135 | the loop's count over the listed members is the true number of active admins |
| HouseholdRepository.FakeHouseholdRepository.Create | internal/adapter/postgres/fake_household_repo.go:84-114 | stores the household and its founding ADMIN membership |
| HouseholdRepository.FakeHouseholdRepository.FindMembership | internal/adapter/postgres/fake_household_repo.go:164-181 | the membership unless absent or tombstoned |
| HouseholdRepository.FakeHouseholdRepository.ListMembers | internal/adapter/postgres/fake_household_repo.go:185-203 | each active membership of the household exactly once, in some order |
| HouseholdRepository.FakeHouseholdRepository.ListForUser | internal/adapter/postgres/fake_household_repo.go:139-159 | each active household of the user's active memberships exactly once, in some order |
| HouseholdRepository.FakeHouseholdRepository.AddMember | internal/adapter/postgres/fake_household_repo.go:208-233 | refuses an active member, otherwise stores the role and clears the tombstone |
| HouseholdRepository.FakeHouseholdRepository.RemoveMember | internal/adapter/postgres/fake_household_repo.go:238-252 | sets the tombstone |
| HouseholdRepository.FakeHouseholdRepository.UpdateName | internal/adapter/postgres/fake_household_repo.go:257-281 | renames only at the expected version and then increments it |
| HouseholdRepository.FakeHouseholdRepository.Deactivate | internal/adapter/postgres/fake_household_repo.go:286-299 | removes the household and keeps its memberships |
| HouseholdRepository.HouseholdLogic.Create | internal/domain/household/household_logic.go:52-71 | validates the name, then creates |
| HouseholdRepository.HouseholdLogic.AddMember | internal/domain/household/household_logic.go:92-109 | the step that `AddMemberAnswer` describes: only for a calling admin |
| HouseholdRepository.HouseholdLogic.RemoveMember | internal/domain/household/household_logic.go:113-153 | the step that `RemoveMemberAnswer` describes: only for a calling admin, a no-op for a non-member, refused for the last admin |
| HouseholdRepository.HouseholdLogic.UpdateName | internal/domain/household/household_logic.go:156-168 | validates the name, then renames |
| HouseholdRepository.HouseholdLogic.Deactivate | internal/domain/household/household_logic.go:171-176 | deactivates |
| HouseholdRepository.CreateHouseholdUser | internal/domain/household/member_logic.go:46-71 | registers the user through the user logic, then adds the MEMBER role; without an error the email finds the new user and the household finds the membership |
| Uuid.TextInjective | internal/adapter/postgres/fake_account_repo.go:39-41 | distinct ids have distinct texts |
| Accounts.NameKeyInjective | internal/adapter/postgres/fake_account_repo.go:39-41 | index keys coincide exactly for the same household and the same name ignoring case |
| Accounts.NamesAreExact | internal/adapter/postgres/fake_account_repo.go:54-219 | after any calls the index maps a household and name to exactly the active account that bears it ignoring case |
| Accounts.NamesAreUnique | internal/adapter/postgres/fake_account_repo.go:54-85 | no two active accounts of a household share a name ignoring case |
| Accounts.CreationRefusedIffInUse | internal/adapter/postgres/fake_account_repo.go:65-68 | a creation is refused exactly when an active account of the household has the name |
| Accounts.StepKeepsIndexed | internal/adapter/postgres/fake_account_repo.go:134-219 | every call, case-only and rejected renames included, keeps index and primary map in agreement |
| Accounts.RunMatchesHistory | internal/adapter/postgres/fake_account_repo.go:54-219 | after any calls the store holds exactly the accounts that the accepted calls describe, with the latest name, balance, version and editor |
| Accounts.CreationAnswer | internal/adapter/postgres/fake_account_repo.go:65-85 | accepted exactly if the name is free in the household; a refusal changes nothing |
| Accounts.RenamingAnswer | internal/adapter/postgres/fake_account_repo.go:134-167 | accepted exactly for an active account at the expected version whose new name no other active account of the household has ignoring case; which error otherwise, with nothing changed |
| Accounts.RebalancingAnswer | internal/adapter/postgres/fake_account_repo.go:172-196 | accepted exactly for an active account at the expected version; a refusal changes nothing |
| Accounts.DeactivationAnswer | internal/adapter/postgres/fake_account_repo.go:201-219 | never fails, removes that account and leaves all others |
| Accounts.FakeAccountRepository.Create | internal/adapter/postgres/fake_account_repo.go:54-85 | stores under both keys unless the name is taken |
| Accounts.FakeAccountRepository.UpdateName | internal/adapter/postgres/fake_account_repo.go:134-167 | moves the index key and increments the version, or changes nothing |
| Accounts.FakeAccountRepository.UpdateBalance | internal/adapter/postgres/fake_account_repo.go:172-196 | overwrites the balance at the expected version |
| Accounts.FakeAccountRepository.Deactivate | internal/adapter/postgres/fake_account_repo.go:201-219 | removes both keys |
| Users.RunIsDualIndexed | internal/adapter/postgres/fake_user_repo.go:60-212 | after any calls both indexes hold the same users with identical records |
| Users.EmailsAreUnique | internal/adapter/postgres/fake_user_repo.go:71-73 | no two active users share an email ignoring case |
| Users.RunMatchesHistory | internal/domain/user/user_logic.go:47-132 | the store holds exactly the users that the accepted calls describe: email, latest name and password hash, version and editors |
| Users.FoundIffCurrent | internal/adapter/postgres/fake_user_repo.go:92-108 | after any calls an id is found exactly while the accepted calls leave it a user, as the record they describe, and the email finds the same record |
| Users.EmailFoundIffCurrent | internal/adapter/postgres/fake_user_repo.go:113-129 | after any calls an email is found exactly while some such user has it ignoring case |
| Users.RegisterAnswer | internal/domain/user/user_logic.go:47-69 | accepted exactly for an email no active user has ignoring case, a name of 2 to 100 and a password of 8 to 1000 characters; the returned record is the one its id finds; any error changes nothing |
| Users.ChangePasswordAnswer | internal/domain/user/user_logic.go:101-132 | accepted exactly for an active user, the user's latest accepted password as the old one, a new one of 8 to 1000 characters and the expected version; which error otherwise, with nothing changed |
| Users.RepositoryUpdateAnswer | internal/adapter/postgres/fake_user_repo.go:134-189 | both repository updates are accepted exactly for a stored user at the expected version; which error otherwise, with nothing changed |
| Users.UpdateProfileAnswer | internal/domain/user/user_logic.go:84-96 | accepted exactly for a valid name, an active user and the expected version; which error otherwise, with nothing changed |
| Users.DeactivateAnswer | internal/adapter/postgres/fake_user_repo.go:194-212 | never fails; the id and the email are no longer found, every other id is found as before |
| Users.LoginIffAuthentic | internal/domain/user/login_logic.go:66-93 | a login succeeds exactly for an active user's email ignoring case with the latest accepted password, and its token is issued to that user |
| Users.LoginAnswer | internal/domain/user/login_logic.go:66-93 | the token and expiry that a login returns validate to the authentic user until that expiry and are expired after it; a failed login changes nothing |
| Users.TokenLifetime | internal/adapter/auth/fake_token_service.go:48-81 | the token that a successful login returned validates to its user up to login time plus lifetime and is expired afterwards, whatever is called in between |
| Users.VerifyIsExact | internal/adapter/auth/fake_hasher.go:27-44 | a hash verifies only the password it was made from |
| UserRepository.FakeUserRepository.Create | internal/adapter/postgres/fake_user_repo.go:60-87 | stores one record under both keys unless an active user has the email ignoring case; the indexes stay in agreement |
| UserRepository.FakeUserRepository.FindByEmail | internal/adapter/postgres/fake_user_repo.go:113-129 | found exactly if an active user has the email ignoring case, and then the same record is found by its id |
| UserRepository.FakeUserRepository.UpdateProfile | internal/adapter/postgres/fake_user_repo.go:134-159 | versioned update of both records, which keeps the indexes in agreement |
| UserRepository.FakeUserRepository.ChangePassword | internal/adapter/postgres/fake_user_repo.go:164-189 | versioned update of both records, which keeps the indexes in agreement |
| UserRepository.FakeUserRepository.Deactivate | internal/adapter/postgres/fake_user_repo.go:194-212 | removes both keys: afterwards neither the id nor the email finds the user |
| UserRepository.FakeTokenService.Issue | internal/adapter/auth/fake_token_service.go:48-61 | stores user and expiry under a new token |
| UserRepository.FakeTokenService.Validate | internal/adapter/auth/fake_token_service.go:66-81 | unknown, expired or the user's id, by the clock |
| UserRepository.UserLogic.Register | internal/domain/user/user_logic.go:47-69 | validates, hashes and creates |
| UserRepository.UserLogic.UpdateProfile | internal/domain/user/user_logic.go:84-96 | validates the display name, then updates at the expected version |
| UserRepository.UserLogic.Deactivate | internal/domain/user/user_logic.go:135-140 | removes the user |
| UserRepository.FakeUserRepository.FindByID | internal/adapter/postgres/fake_user_repo.go:92-108 | the user found has that id and is the record its email finds; `FoundIffCurrent` says when one is found |
| UserRepository.UserLogic.ChangePassword | internal/domain/user/user_logic.go:101-132 | the step that `ChangePasswordAnswer` describes: verifies the old password before storing the new hash at the expected version |
| UserRepository.LoginLogic.Login | internal/domain/user/login_logic.go:66-93 | finds, verifies and issues; what is returned is described by `LoginAnswer` |
| Versions.ChainOfVersions | internal/adapter/postgres/fake_account_repo.go:134-196 | the accepted updates of an entity expect versions 1, 2, 3, ... and its version is one more than their number |
| Versions.OneWriterPerVersion | internal/adapter/postgres/fake_account_repo.go:149-163 | of two accepted updates of an entity the later expects the higher version, so one version admits one writer |
| Versions.AccountChain | internal/adapter/postgres/fake_account_repo.go:134-219 | in every run the account versions form such chains |
| Versions.HouseholdChain | internal/adapter/postgres/fake_household_repo.go:257-299 | in every run the household versions form such chains |
| Versions.UserChain | internal/adapter/postgres/fake_user_repo.go:134-212 | in every run the user versions form such chains |

## Left out

- HTTP handlers, routing, middleware, configuration, logging, tracing, migrations and the connection pool: plumbing.
- Argon2id and PASETO: cryptography in libraries; the deterministic fakes are modelled instead.
- Credit-card settings: range checks and the same version pattern as accounts.
- Test seeding (`Add`, `AddHousehold`, `AddMemberDirect`), `SetError`, mutexes and the `testing.Testing()` guards.
- Error texts and wrapping: an error is modelled by its sentinel.
- `AccountLogic`: validation in front of the account repository and its zero-balance rule for deactivation.
- NameKeyInjective, EmailsAreUnique, LoginIffAuthentic: lower-casing is ASCII only, not full Unicode case folding.
- NeverWithoutAdmin: each logic-layer call is one step, because RemoveMember reads and writes without RunAtomic; interleavings of its statements are not covered.
- SqlInterleaving.AnyInterleaving: a statement takes effect at once and for all posts; row locks, isolation levels and primary keys are not modelled, of the foreign keys only the one to accounts is, and no post names a soft-deleted account.
- SqlRepository.Queries.ListEntriesForTransaction: entries of a transaction are listed in insertion order; `ORDER BY created_at` leaves the order of equal timestamps to the database.
- SqlRepository.LedgerRepo.GetTransactionHistory: entries of a transaction are listed in insertion order; `ORDER BY created_at` leaves the order of equal timestamps to the database.
- OutermostIsAtomic: a callback uses the context it is given; a rollback discards the transaction, a failed commit changes nothing, and an error raised inside is an application error, not an SQL error that aborts the transaction.
- Re-adding a removed member in PostgreSQL, where the composite primary key applies; the in-memory repository's behaviour is modelled.
- Direct overwrites of an account balance in SQL: they bypass the ledger.
