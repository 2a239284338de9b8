/** LedgerRepo and the generated queries it calls, as methods that change the tables. */
module SqlRepository {
  import opened Wrappers
  import opened MachineInt
  import opened Uuid
  import opened Ledger
  import opened LedgerHistory
  import opened LedgerRepository
  import opened Paging
  import opened SqlLedger

  datatype PostError = NotBalanced | StatementFailed

  /** The connection that DBTXFromContext hands to the repository. */
  class Queries {
    var transactions: seq<Transaction>
    var entries: seq<Entry>
    var accounts: map<UUID, Account>

    ghost function State(): Tables
      reads this
    {
      Tables(transactions, entries, accounts)
    }

    method InsertTransaction(row: Transaction)
      modifies this
      ensures State() == Execute(old(State()), Statement.InsertTransaction(row))
    {
      transactions := transactions + [row];
    }

    method InsertLedgerEntry(row: Entry) returns (ok: bool)
      modifies this
      ensures ok <==> !Rejected(old(State()), InsertEntry(row))
      ensures State() == if ok then Execute(old(State()), InsertEntry(row)) else old(State())
    {
      ok := !row.line.entryType.Other? && row.line.amount > 0 && row.line.accountId in accounts;
      if ok {
        entries := entries + [row];
      }
    }

    method AdjustAccountBalance(id: UUID, delta: Int64) returns (ok: bool)
      modifies this
      ensures ok <==> !Rejected(old(State()), AdjustBalance(id, delta))
      ensures State() == if ok then Execute(old(State()), AdjustBalance(id, delta)) else old(State())
    {
      if id !in accounts || accounts[id].deleted {
        return true;
      }
      var row := accounts[id];
      if !Fits(row.balance + delta) || row.version + 1 > MAX_INT32 {
        return false;
      }
      accounts := accounts[id := Account(row.balance + delta, row.version + 1, false)];
      ok := true;
    }

    method ListTransactionIDsForAccount(accountId: UUID) returns (ids: set<UUID>)
      ensures forall id :: id in ids <==> exists e <- entries :: e.transactionId == id && e.line.accountId == accountId
    {
      ids := {};
      for i := 0 to |entries|
        invariant forall id :: id in ids <==>
          exists e <- entries[..i] :: e.transactionId == id && e.line.accountId == accountId
      {
        assert entries[..i + 1] == entries[..i] + [entries[i]];
        if entries[i].line.accountId == accountId {
          ids := ids + {entries[i].transactionId};
        }
      }
      assert entries[..|entries|] == entries;
    }

    method ListEntriesForTransaction(txId: UUID) returns (items: seq<Entry>)
      ensures items == EntriesOf(entries, txId)
    {
      items := [];
      for i := 0 to |entries|
        invariant items == EntriesOf(entries[..i], txId)
      {
        assert entries[..i + 1][..i] == entries[..i];
        if entries[i].transactionId == txId {
          items := items + [entries[i]];
        }
      }
      assert entries[..|entries|] == entries;
    }
  }

  lemma {:induction false} LinesStatementsAppend(txId: UUID, lines: seq<EntryInput>, ids: seq<UUID>, i: nat)
    requires |ids| == |lines| && i <= |lines|
    ensures LinesStatements(txId, lines, ids) ==
            LinesStatements(txId, lines[..i], ids[..i]) + LinesStatements(txId, lines[i..], ids[i..])
  {
    hide LineStatements;
    var n := |lines| - 1;
    if i == |lines| {
      assert lines[..i] == lines && ids[..i] == ids;
    } else {
      LinesStatementsAppend(txId, lines[..n], ids[..n], i);
      assert lines[..n][..i] == lines[..i] && lines[..n][i..] == lines[i..][..n - i];
      assert ids[..n][..i] == ids[..i] && ids[..n][i..] == ids[i..][..n - i];
    }
  }

  lemma {:induction false} FailureSticks(t: Tables, xs: seq<Statement>, ys: seq<Statement>)
    requires !ExecuteAll(t, xs).1
    ensures ExecuteAll(t, xs + ys) == ExecuteAll(t, xs)
  {
    if ys == [] {
      assert xs + ys == xs;
    } else {
      assert (xs + ys)[..|xs + ys| - 1] == xs + ys[..|ys| - 1];
      FailureSticks(t, xs, ys[..|ys| - 1]);
    }
  }

  /** The statements sent before line i. */
  ghost function Sent(p: Post, i: nat): seq<Statement>
    requires p.Supplied() && i <= |p.input.entries|
  {
    [Statement.InsertTransaction(Posted(p).transaction)] +
    LinesStatements(p.txId, p.input.entries[..i], p.entryIds[..i])
  }

  /** Line i adds its two statements to those already executed. */
  lemma SentOneMore(t: Tables, p: Post, i: nat)
    requires p.Supplied() && i < |p.input.entries|
    requires ExecuteAll(t, Sent(p, i)).1
    ensures var line := p.input.entries[i];
            var u := ExecuteAll(t, Sent(p, i)).0;
            var insert := InsertEntry(Entry(p.entryIds[i], p.txId, line));
            var adjust := AdjustBalance(line.accountId, Wrap(Signed(line)));
            && ExecuteAll(t, Sent(p, i + 1)) ==
               (if Rejected(u, insert) then (u, false)
                else if Rejected(Execute(u, insert), adjust) then (Execute(u, insert), false)
                else (Execute(Execute(u, insert), adjust), true))
  {
    hide Rejected, Execute, Posted;
    var line := p.input.entries[i];
    var ls, ids := p.input.entries[..i + 1], p.entryIds[..i + 1];
    assert ls[..i] == p.input.entries[..i] && ids[..i] == p.entryIds[..i];
    var two := LineStatements(p.txId, line, p.entryIds[i]);
    assert Sent(p, i + 1) == Sent(p, i) + two;
    ExecuteTwo(t, Sent(p, i), two[0], two[1]);
    assert two == [two[0], two[1]];
  }

  lemma ExecuteTwo(t: Tables, ss: seq<Statement>, x: Statement, y: Statement)
    requires ExecuteAll(t, ss).1
    ensures var u := ExecuteAll(t, ss).0;
            ExecuteAll(t, ss + [x, y]) ==
            (if Rejected(u, x) then (u, false)
             else if Rejected(Execute(u, x), y) then (Execute(u, x), false)
             else (Execute(Execute(u, x), y), true))
  {
    hide Rejected, Execute;
    assert (ss + [x, y])[..|ss| + 1] == ss + [x];
    assert (ss + [x])[..|ss|] == ss;
  }

  lemma FailedEarly(t: Tables, p: Post, i: nat)
    requires p.Supplied() && i <= |p.input.entries|
    requires !ExecuteAll(t, Sent(p, i)).1
    ensures ExecuteAll(t, PostStatements(p)) == ExecuteAll(t, Sent(p, i))
  {
    hide ExecuteAll, LinesStatements, Posted;
    LinesStatementsAppend(p.txId, p.input.entries, p.entryIds, i);
    var rest := LinesStatements(p.txId, p.input.entries[i..], p.entryIds[i..]);
    assert PostStatements(p) == Sent(p, i) + rest;
    FailureSticks(t, Sent(p, i), rest);
  }

  class LedgerRepo {
    const q: Queries

    constructor (q: Queries)
      ensures this.q == q
    {
      this.q := q;
    }

    /** Either nothing is sent, or exactly the statements of the post up to the first rejected one. */
    method PostTransaction(householdId: UUID, input: PostInput, callerId: UUID, txId: UUID, entryIds: seq<UUID>)
      returns (r: Result<Record, PostError>)
      requires |entryIds| == |input.entries|
      modifies q
      ensures var p := Post(householdId, input, callerId, txId, entryIds, false);
              && (r == Err(NotBalanced) <==> !Balanced(input.entries))
              && (r == Err(NotBalanced) ==> q.State() == old(q.State()))
              && (r != Err(NotBalanced) ==> (q.State(), r.Ok?) == ExecuteAll(old(q.State()), PostStatements(p)))
              && (r.Ok? ==> r.value == Posted(p))
    {
      var balanced := SumsMatch(input.entries);
      if !balanced {
        return Err(NotBalanced);
      }
      ghost var p := Post(householdId, input, callerId, txId, entryIds, false);
      ghost var t := q.State();
      hide ExecuteAll, Rejected, Execute, LinesStatements, Wrap;
      var tx := Transaction(txId, householdId, input.description, input.date, callerId);
      q.InsertTransaction(tx);
      FirstStatement(t, p);
      var created: seq<Entry> := [];
      for i := 0 to |input.entries|
        invariant ExecuteAll(t, Sent(p, i)) == (q.State(), true)
        invariant created == NewEntries(txId, input.entries, entryIds)[..i]
      {
        var ei := input.entries[i];
        var entry := Entry(entryIds[i], tx.id, ei);
        SentOneMore(t, p, i);
        var ok := q.InsertLedgerEntry(entry);
        if !ok {
          FailedEarly(t, p, i + 1);
          return Err(StatementFailed);
        }
        created := created + [entry];
        var delta: Int64 := 0;
        match ei.entryType {
          case Credit => delta := ei.amount;
          case Debit => delta := Wrap(0 - ei.amount);
          case Other(_) =>
        }
        DeltaOf(ei);
        ok := q.AdjustAccountBalance(ei.accountId, delta);
        if !ok {
          FailedEarly(t, p, i + 1);
          return Err(StatementFailed);
        }
      }
      assert input.entries[..|input.entries|] == input.entries && entryIds[..|input.entries|] == entryIds;
      assert created == NewEntries(txId, input.entries, entryIds);
      r := Ok(Record(tx, created));
    }

    /** list is the order in which the database lists the household's rows. */
    method GetTransactionHistory(householdId: UUID, list: seq<Transaction>, accountId: UUID,
                                 offset: Int64, limit: Int64)
      returns (page: Page<Record>)
      requires ListsHousehold(q.transactions, householdId, list)
      ensures page == match FilterPage(SqlPage(list, offset, limit), Kept(q.entries, accountId))
                      case Failed => Failed
                      case Rows(kept) => Rows(Records(q.entries, kept))
      ensures page.Rows? ==> AllStored(q.transactions, householdId, q.entries, page.rows)
    {
      hide EntriesOf, ListsHousehold, AllStored, Filter, Records;
      var txFilter := {};
      if accountId != NIL {
        txFilter := q.ListTransactionIDsForAccount(accountId);
      }
      var limit32 := ToInt32(limit);
      if limit32 <= 0 {
        limit32 := 50;
      }
      var offset32 := ToInt32(offset);
      if offset32 < 0 {
        return Failed;
      }
      var txRows := list[Min(offset32, |list|)..Min(offset32 + limit32, |list|)];
      var results: seq<Record> := [];
      ghost var kept: seq<Transaction> := [];
      NothingYet(txRows, q.entries, Kept(q.entries, accountId));
      for i := 0 to |txRows|
        invariant kept == Filter(txRows[..i], Kept(q.entries, accountId))
        invariant results == Records(q.entries, kept)
        invariant forall t <- kept :: t in list
      {
        FilterOneMore(txRows, i, Kept(q.entries, accountId));
        RecordsOneMore(q.entries, kept, txRows[i]);
        if accountId == NIL || txRows[i].id in txFilter {
          var items := q.ListEntriesForTransaction(txRows[i].id);
          results := results + [Record(txRows[i], items)];
          kept := kept + [txRows[i]];
        }
      }
      assert txRows[..|txRows|] == txRows;
      RowsOfHousehold(q.transactions, householdId, list, q.entries, kept);
      page := Rows(results);
    }
  }

  lemma FirstStatement(t: Tables, p: Post)
    requires p.Supplied()
    ensures ExecuteAll(t, Sent(p, 0)) == (Execute(t, Statement.InsertTransaction(Posted(p).transaction)), true)
  {
    assert Sent(p, 0) == [Statement.InsertTransaction(Posted(p).transaction)];
    assert Sent(p, 0)[..0] == [];
  }

  lemma DeltaOf(l: EntryInput)
    ensures Wrap(Signed(l)) == match l.entryType
                               case Credit => l.amount
                               case Debit => Wrap(0 - l.amount)
                               case Other(_) => 0
  {
  }

  /** ORDER BY created_at fixes the rows but not the order of equal timestamps. */
  ghost predicate ListsHousehold(transactions: seq<Transaction>, householdId: UUID, list: seq<Transaction>) {
    multiset(list) == multiset(Filter(transactions, InHousehold(householdId)))
  }

  lemma {:induction false} FilterMembers<T>(s: seq<T>, keep: T -> bool)
    ensures forall x :: x in Filter(s, keep) <==> x in s && keep(x)
  {
    if s != [] {
      assert s == s[..|s| - 1] + [s[|s| - 1]];
      FilterMembers(s[..|s| - 1], keep);
    }
  }

  lemma ListedRows(transactions: seq<Transaction>, householdId: UUID, list: seq<Transaction>)
    requires ListsHousehold(transactions, householdId, list)
    ensures forall t :: t in list <==> t in transactions && t.householdId == householdId
  {
    FilterMembers(transactions, InHousehold(householdId));
    forall t ensures t in list <==> t in Filter(transactions, InHousehold(householdId)) {
      assert t in list <==> t in multiset(list);
    }
  }

  /** Records of the household as they are stored. */
  ghost predicate AllStored(transactions: seq<Transaction>, householdId: UUID, entries: seq<Entry>, rs: seq<Record>) {
    forall r <- rs ::
      && r.transaction in transactions && r.transaction.householdId == householdId
      && r.entries == EntriesOf(entries, r.transaction.id)
  }

  lemma RowsOfHousehold(transactions: seq<Transaction>, householdId: UUID, list: seq<Transaction>,
                        entries: seq<Entry>, kept: seq<Transaction>)
    requires ListsHousehold(transactions, householdId, list) && forall t <- kept :: t in list
    ensures AllStored(transactions, householdId, entries, Records(entries, kept))
  {
    hide EntriesOf, ListsHousehold;
    ListedRows(transactions, householdId, list);
    forall r <- Records(entries, kept)
      ensures r.transaction in transactions && r.transaction.householdId == householdId
      ensures r.entries == EntriesOf(entries, r.transaction.id)
    {
      var i :| 0 <= i < |kept| && Records(entries, kept)[i] == r;
      assert kept[i] in list;
    }
  }

  /** The account filter of the SQL repository; uuid.Nil keeps everything. */
  function Kept(entries: seq<Entry>, accountId: UUID): Transaction -> bool {
    (t: Transaction) =>
      accountId == NIL || exists e <- entries :: e.transactionId == t.id && e.line.accountId == accountId
  }

  function Records(entries: seq<Entry>, ts: seq<Transaction>): (rs: seq<Record>)
    ensures |rs| == |ts| && forall i | 0 <= i < |ts| :: rs[i] == Record(ts[i], EntriesOf(entries, ts[i].id))
  {
    seq(|ts|, i requires 0 <= i < |ts| => Record(ts[i], EntriesOf(entries, ts[i].id)))
  }

  lemma NothingYet(ts: seq<Transaction>, entries: seq<Entry>, keep: Transaction -> bool)
    ensures Filter(ts[..0], keep) == [] && Records(entries, []) == []
  {
  }

  lemma FilterLast<T>(front: seq<T>, x: T, keep: T -> bool)
    ensures Filter(front + [x], keep) == Filter(front, keep) + if keep(x) then [x] else []
  {
    assert (front + [x])[..|front|] == front;
  }

  lemma FilterOneMore(ts: seq<Transaction>, i: nat, keep: Transaction -> bool)
    requires i < |ts|
    ensures Filter(ts[..i + 1], keep) == Filter(ts[..i], keep) + if keep(ts[i]) then [ts[i]] else []
  {
    assert ts[..i + 1] == ts[..i] + [ts[i]];
    FilterLast(ts[..i], ts[i], keep);
  }

  lemma RecordsOneMore(entries: seq<Entry>, ts: seq<Transaction>, t: Transaction)
    ensures Records(entries, ts + [t]) == Records(entries, ts) + [Record(t, EntriesOf(entries, t.id))]
  {
    hide EntriesOf;
  }

  // ---------- The two paging orders compared ----------

  lemma {:induction false} SameFilter<T>(s: seq<T>, few: T -> bool, many: T -> bool)
    requires forall x <- s :: few(x) ==> many(x)
    ensures |Filter(s, few)| <= |Filter(s, many)|
    ensures Filter(s, few) == Filter(s, many) <==> forall x <- s :: many(x) ==> few(x)
  {
    if s != [] {
      var front, x := s[..|s| - 1], s[|s| - 1];
      assert s == front + [x];
      SameFilter(front, few, many);
      FilterLast(front, x, few);
      FilterLast(front, x, many);
      hide Filter;
      if few(x) {
        assert Filter(front, few) == Filter(s, few)[..|Filter(s, few)| - 1];
        assert Filter(front, many) == Filter(s, many)[..|Filter(s, many)| - 1];
        assert Filter(s, few) == Filter(s, many) <==> Filter(front, few) == Filter(front, many);
      } else if many(x) {
        assert |Filter(s, few)| < |Filter(s, many)|;
      } else {
        assert Filter(s, few) == Filter(front, few) && Filter(s, many) == Filter(front, many);
      }
    }
  }

  lemma RecordsInjective(entries: seq<Entry>, xs: seq<Transaction>, ys: seq<Transaction>)
    ensures Records(entries, xs) == Records(entries, ys) <==> xs == ys
  {
    if Records(entries, xs) == Records(entries, ys) {
      assert |xs| == |Records(entries, xs)| == |ys|;
      forall i | 0 <= i < |xs| ensures xs[i] == ys[i] {
        assert Records(entries, xs)[i].transaction == xs[i];
      }
    }
  }

  /** Over the same list order, all pages of filter-then-page and all pages of page-then-filter show the
      same records exactly when an account is given or every transaction of the household has an entry. */
  lemma PagingOrdersAgree(ts: seq<Transaction>, entries: seq<Entry>, household: UUID, account: UUID, size: int)
    requires size > 0 && SqlPagesCover(|Filter(ts, InHousehold(household))|, size)
    ensures var list := Filter(ts, InHousehold(household));
            var sql := SqlPages(list, Kept(entries, account), 0, size);
            && sql.Rows?
            && (SlicePages(Matching(ts, entries, household, account), 0, size) == Rows(Records(entries, sql.rows))
                <==> account != NIL || forall t <- list :: Touches(entries, t.id, NIL))
  {
    hide Matching, Filter, SlicePages, SqlPages, SqlPagesCover;
    var list := Filter(ts, InHousehold(household));
    var results := Matching(ts, entries, household, account);
    var touched, kept := Filter(list, Touched(entries, account)), Filter(list, Kept(entries, account));
    SlicePagesPartition(results, 0, size);
    assert results[0..] == results;
    SqlPagesPartition(list, Kept(entries, account), size);
    MatchingIsFilter(ts, entries, household, account);
    assert results == Records(entries, touched);
    RecordsInjective(entries, touched, kept);
    forall t <- list ensures Touched(entries, account)(t) ==> Kept(entries, account)(t) {
    }
    SameFilter(list, Touched(entries, account), Kept(entries, account));
    if account != NIL {
      forall t <- list ensures Kept(entries, account)(t) ==> Touched(entries, account)(t) {
      }
    }
  }
}
