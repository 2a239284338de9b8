/** The in-memory ledger repository and the logic layer in front of it, updated in place. */
module LedgerRepository {
  import opened Wrappers
  import opened MachineInt
  import opened Uuid
  import opened Ledger
  import opened LedgerHistory
  import opened Paging

  /** The balance test that the logic layer and both repositories run. */
  method SumsMatch(lines: seq<EntryInput>) returns (ok: bool)
    ensures ok <==> Balanced(lines)
  {
    var debitSum: Int64, creditSum: Int64 := 0, 0;
    for i := 0 to |lines|
      invariant debitSum == Wrap(Debits(lines[..i])) && creditSum == Wrap(Credits(lines[..i]))
    {
      SumsStep(lines, i);
      match lines[i].entryType
      case Debit => debitSum := Wrap(debitSum + lines[i].amount);
      case Credit => creditSum := Wrap(creditSum + lines[i].amount);
      case Other(_) =>
    }
    assert lines[..|lines|] == lines;
    ok := debitSum == creditSum;
  }

  lemma SumsStep(lines: seq<EntryInput>, i: nat)
    requires i < |lines|
    ensures Wrap(Debits(lines[..i + 1])) ==
            if lines[i].entryType.Debit? then Wrap(Wrap(Debits(lines[..i])) + lines[i].amount)
            else Wrap(Debits(lines[..i]))
    ensures Wrap(Credits(lines[..i + 1])) ==
            if lines[i].entryType.Credit? then Wrap(Wrap(Credits(lines[..i])) + lines[i].amount)
            else Wrap(Credits(lines[..i]))
  {
    hide Wrap;
    assert lines[..i + 1][..i] == lines[..i];
    WrapOfSum(Debits(lines[..i]), lines[i].amount);
    WrapOfSum(Credits(lines[..i]), lines[i].amount);
  }

  lemma ApplyNoLines(m: map<UUID, Int64>)
    ensures ApplyLines(m, []) == m
  {
  }

  lemma ApplyLinesStep(m: map<UUID, Int64>, lines: seq<EntryInput>, i: nat)
    requires i < |lines|
    ensures ApplyLines(m, lines[..i + 1]) == ApplyLine(ApplyLines(m, lines[..i]), lines[i])
  {
    hide ApplyLine;
    assert lines[..i + 1][..i] == lines[..i];
  }

  class FakeLedgerRepository {
    var transactions: seq<Transaction>
    var entries: seq<Entry>
    var balances: map<UUID, Int64>

    ghost function State(): Book
      reads this
    {
      Book(transactions, entries, balances)
    }

    constructor ()
      ensures State() == EMPTY
    {
      transactions, entries, balances := [], [], map[];
    }

    method PostTransaction(householdId: UUID, input: PostInput, callerId: UUID, txId: UUID, entryIds: seq<UUID>)
      returns (r: Result<Record, LedgerError>)
      requires |entryIds| == |input.entries|
      modifies this
      ensures (State(), r) == Step(old(State()), Post(householdId, input, callerId, txId, entryIds, false))
    {
      var balanced := SumsMatch(input.entries);
      if !balanced {
        return Err(Unbalanced);
      }
      var tx := Transaction(txId, householdId, input.description, input.date, callerId);
      transactions := transactions + [tx];
      var created := StoreEntries(tx.id, input.entries, entryIds);
      r := Ok(Record(tx, created));
    }

    /** The loop of PostTransaction: one entry and one balance update per line. */
    method StoreEntries(txId: UUID, lines: seq<EntryInput>, entryIds: seq<UUID>) returns (created: seq<Entry>)
      requires |entryIds| == |lines|
      modifies this`entries, this`balances
      ensures created == NewEntries(txId, lines, entryIds)
      ensures entries == old(entries) + created
      ensures balances == ApplyLines(old(balances), lines)
    {
      hide ApplyLines, Wrap, BalanceOf;
      created := [];
      ApplyNoLines(balances);
      for i := 0 to |lines|
        invariant created == NewEntries(txId, lines, entryIds)[..i]
        invariant entries == old(entries) + created
        invariant balances == ApplyLines(old(balances), lines[..i])
      {
        var ei := lines[i];
        var entry := Entry(entryIds[i], txId, ei);
        created := created + [entry];
        entries := entries + [entry];
        ApplyLinesStep(old(balances), lines, i);
        match ei.entryType
        case Credit =>
          balances := balances[ei.accountId := Wrap(BalanceOf(balances, ei.accountId) + ei.amount)];
        case Debit =>
          balances := balances[ei.accountId := Wrap(BalanceOf(balances, ei.accountId) - ei.amount)];
        case Other(_) =>
      }
      assert lines[..|lines|] == lines;
    }

    /** Reading a missing key of a Go map yields zero. */
    method GetBalance(accountId: UUID) returns (balance: Int64)
      ensures balance == BalanceOf(balances, accountId)
    {
      balance := if accountId in balances then balances[accountId] else 0;
    }

    method GetTransactionHistory(householdId: UUID, accountId: UUID, offset: Int64, limit: Int64)
      returns (page: Page<Record>)
      ensures page == SlicePage(Matching(transactions, entries, householdId, accountId), offset, limit)
    {
      var txIds := {};
      for i := 0 to |entries|
        invariant forall id :: id in txIds <==> Touches(entries[..i], id, accountId)
      {
        var e := entries[i];
        assert entries[..i + 1] == entries[..i] + [e];
        if accountId == NIL || e.line.accountId == accountId {
          txIds := txIds + {e.transactionId};
        }
      }
      assert entries[..|entries|] == entries;
      var results := [];
      for i := 0 to |transactions|
        invariant results == Matching(transactions[..i], entries, householdId, accountId)
      {
        var tx := transactions[i];
        assert transactions[..i + 1][..i] == transactions[..i];
        if tx.householdId == householdId && tx.id in txIds {
          var txEntries := CollectEntries(tx.id);
          results := results + [Record(tx, txEntries)];
        }
      }
      assert transactions[..|transactions|] == transactions;
      if offset >= |results| {
        return Rows([]);
      }
      if offset < 0 {
        return Failed;
      }
      results := results[offset..];
      if limit > 0 && |results| > limit {
        results := results[..limit];
      }
      page := Rows(results);
    }

    /** The innermost loop of GetTransactionHistory. */
    method CollectEntries(txId: UUID) returns (txEntries: seq<Entry>)
      ensures txEntries == EntriesOf(entries, txId)
    {
      txEntries := [];
      for i := 0 to |entries|
        invariant txEntries == EntriesOf(entries[..i], txId)
      {
        assert entries[..i + 1][..i] == entries[..i];
        if entries[i].transactionId == txId {
          txEntries := txEntries + [entries[i]];
        }
      }
      assert entries[..|entries|] == entries;
    }
  }

  class LedgerLogic {
    const repo: FakeLedgerRepository

    constructor (repo: FakeLedgerRepository)
      ensures this.repo == repo
    {
      this.repo := repo;
    }

    method PostTransaction(householdId: UUID, input: PostInput, callerId: UUID, txId: UUID, entryIds: seq<UUID>)
      returns (r: Result<Record, LedgerError>)
      requires |entryIds| == |input.entries|
      modifies repo
      ensures (repo.State(), r) == Step(old(repo.State()), Post(householdId, input, callerId, txId, entryIds, true))
    {
      if input.description == "" || |input.entries| <= 0 {
        return Err(InvalidInput);
      }
      for i := 0 to |input.entries|
        invariant forall k | 0 <= k < i :: input.entries[k].amount > 0
      {
        if input.entries[i].amount <= 0 {
          return Err(InvalidAmount(i));
        }
      }
      var balanced := SumsMatch(input.entries);
      if !balanced {
        return Err(Unbalanced);
      }
      r := repo.PostTransaction(householdId, input, callerId, txId, entryIds);
    }
  }

  function InHousehold(household: UUID): Transaction -> bool {
    (t: Transaction) => t.householdId == household
  }

  function Touched(entries: seq<Entry>, account: UUID): Transaction -> bool {
    (t: Transaction) => Touches(entries, t.id, account)
  }

  /** The results before paging are the records of the household's transactions that have an entry
      matching the filter, in order. For uuid.Nil that still demands some entry. */
  lemma {:induction false} MatchingIsFilter(ts: seq<Transaction>, entries: seq<Entry>, household: UUID, account: UUID)
    ensures var kept := Filter(Filter(ts, InHousehold(household)), Touched(entries, account));
            && |Matching(ts, entries, household, account)| == |kept|
            && forall i | 0 <= i < |kept| ::
                 Matching(ts, entries, household, account)[i] == Record(kept[i], EntriesOf(entries, kept[i].id))
  {
    if ts != [] {
      MatchingIsFilter(ts[..|ts| - 1], entries, household, account);
      var t := ts[|ts| - 1];
      var front := Filter(ts[..|ts| - 1], InHousehold(household));
      FilterAppend(front, if InHousehold(household)(t) then [t] else [], Touched(entries, account));
    }
  }
}
