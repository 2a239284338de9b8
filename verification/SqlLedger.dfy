/** Posting through SQL statements: relative balance updates that concurrent posts may interleave. */
module SqlLedger {
  import opened MachineInt
  import opened Uuid
  import opened Ledger

  /** The columns of an accounts row that posting touches; version is a 32-bit INTEGER. */
  datatype Account = Account(balance: Int64, version: int, deleted: bool)

  datatype Tables = Tables(transactions: seq<Transaction>, entries: seq<Entry>, accounts: map<UUID, Account>)

  datatype Statement =
    | InsertTransaction(transaction: Transaction)
    | InsertEntry(entry: Entry)
    | AdjustBalance(accountId: UUID, delta: Int64)

  /** The CHECK and foreign-key constraints of a new entry, and the range errors of BIGINT and INTEGER. */
  predicate Rejected(t: Tables, s: Statement) {
    match s
    case InsertTransaction(_) => false
    case InsertEntry(e) => e.line.entryType.Other? || e.line.amount <= 0 || e.line.accountId !in t.accounts
    case AdjustBalance(a, delta) =>
      a in t.accounts && !t.accounts[a].deleted &&
      (!Fits(t.accounts[a].balance + delta) || t.accounts[a].version + 1 > MAX_INT32)
  }

  /** The UPDATE matches no row when the account is missing or soft-deleted. */
  function Execute(t: Tables, s: Statement): Tables
    requires !Rejected(t, s)
  {
    match s
    case InsertTransaction(row) => t.(transactions := t.transactions + [row])
    case InsertEntry(row) => t.(entries := t.entries + [row])
    case AdjustBalance(a, delta) =>
      if a in t.accounts && !t.accounts[a].deleted then
        var row := t.accounts[a];
        t.(accounts := t.accounts[a := Account(row.balance + delta, row.version + 1, false)])
      else t
  }

  /** Executes up to the first rejected statement; the flag says that there was none. */
  function ExecuteAll(t: Tables, ss: seq<Statement>): (Tables, bool) {
    if ss == [] then (t, true)
    else
      var (u, ok) := ExecuteAll(t, ss[..|ss| - 1]);
      if !ok || Rejected(u, ss[|ss| - 1]) then (u, false) else (Execute(u, ss[|ss| - 1]), true)
  }

  // ---------- Posting ----------

  /** The two statements of one entry. */
  function LineStatements(txId: UUID, line: EntryInput, id: UUID): seq<Statement> {
    [InsertEntry(Entry(id, txId, line)), AdjustBalance(line.accountId, Wrap(Signed(line)))]
  }

  function LinesStatements(txId: UUID, lines: seq<EntryInput>, ids: seq<UUID>): seq<Statement>
    requires |ids| == |lines|
  {
    if lines == [] then []
    else
      var n := |lines| - 1;
      LinesStatements(txId, lines[..n], ids[..n]) + LineStatements(txId, lines[n], ids[n])
  }

  /** What one call of LedgerRepo.PostTransaction sends to the database. */
  function PostStatements(p: Post): seq<Statement>
    requires p.Supplied()
  {
    [InsertTransaction(Posted(p).transaction)] + LinesStatements(p.txId, p.input.entries, p.entryIds)
  }

  // ---------- Sums over statements ----------

  datatype Measure = Raise | Lower | Uses | Credited | Debited

  /** What s contributes to the upward total, the downward total or the update count of account a,
      or, as a new entry, to the credits or the debits recorded for it. */
  function Weight(s: Statement, m: Measure, a: UUID): nat {
    match s
    case InsertTransaction(_) => 0
    case InsertEntry(e) =>
      if e.line.accountId != a || e.line.amount <= 0 then 0
      else if (m.Credited? && e.line.entryType.Credit?) || (m.Debited? && e.line.entryType.Debit?) then e.line.amount
      else 0
    case AdjustBalance(id, delta) =>
      if id != a then 0
      else match m
        case Raise => if delta > 0 then delta else 0
        case Lower => if delta < 0 then 0 - delta else 0
        case Uses => 1
        case Credited => 0
        case Debited => 0
  }

  function SumOf(ss: seq<Statement>, m: Measure, a: UUID): nat {
    if ss == [] then 0 else SumOf(ss[..|ss| - 1], m, a) + Weight(ss[|ss| - 1], m, a)
  }

  lemma {:induction false} SumOfAppend(xs: seq<Statement>, ys: seq<Statement>, m: Measure, a: UUID)
    ensures SumOf(xs + ys, m, a) == SumOf(xs, m, a) + SumOf(ys, m, a)
  {
    hide Weight;
    if ys == [] {
      assert xs + ys == xs;
    } else {
      assert (xs + ys)[..|xs + ys| - 1] == xs + ys[..|ys| - 1];
      SumOfAppend(xs, ys[..|ys| - 1], m, a);
    }
  }

  lemma SumOfWithout(ys: seq<Statement>, k: nat, m: Measure, a: UUID)
    requires k < |ys|
    ensures SumOf(ys, m, a) == SumOf(ys[..k] + ys[k + 1..], m, a) + Weight(ys[k], m, a)
  {
    hide Weight;
    assert ys == ys[..k + 1] + ys[k + 1..] && ys[..k + 1][..k] == ys[..k];
    SumOfAppend(ys[..k + 1], ys[k + 1..], m, a);
    SumOfAppend(ys[..k], ys[k + 1..], m, a);
  }

  /** Where a permutation holds the last element. */
  lemma LastElsewhere<T>(xs: seq<T>, ys: seq<T>) returns (k: nat)
    requires xs != [] && multiset(xs) == multiset(ys)
    ensures k < |ys| && ys[k] == xs[|xs| - 1]
    ensures multiset(xs[..|xs| - 1]) == multiset(ys[..k] + ys[k + 1..])
  {
    var last := xs[|xs| - 1];
    assert xs == xs[..|xs| - 1] + [last];
    assert last in multiset(ys);
    k :| 0 <= k < |ys| && ys[k] == last;
    WithoutElement(ys, k);
    assert multiset(xs[..|xs| - 1]) == multiset(xs) - multiset{last};
  }

  lemma WithoutElement<T>(ys: seq<T>, k: nat)
    requires k < |ys|
    ensures multiset(ys[..k] + ys[k + 1..]) == multiset(ys) - multiset{ys[k]}
  {
    var front, back := ys[..k], ys[k + 1..];
    assert ys == front + ([ys[k]] + back);
    assert multiset(ys) == multiset(front) + (multiset{ys[k]} + multiset(back));
    assert multiset(front + back) == multiset(front) + multiset(back);
  }

  /** Sums do not depend on the order of the statements. */
  lemma {:induction false} SumOfPermutation(xs: seq<Statement>, ys: seq<Statement>, m: Measure, a: UUID)
    requires multiset(xs) == multiset(ys)
    ensures SumOf(xs, m, a) == SumOf(ys, m, a)
  {
    hide Weight;
    if xs == [] {
      assert |multiset(ys)| == 0;
    } else {
      var k := LastElsewhere(xs, ys);
      SumOfPermutation(xs[..|xs| - 1], ys[..k] + ys[k + 1..], m, a);
      SumOfWithout(ys, k, m, a);
    }
  }

  // ---------- Effect of a successful execution ----------

  function TransactionRows(ss: seq<Statement>): seq<Transaction> {
    if ss == [] then []
    else
      var s := ss[|ss| - 1];
      TransactionRows(ss[..|ss| - 1]) + if s.InsertTransaction? then [s.transaction] else []
  }

  function EntryRows(ss: seq<Statement>): seq<Entry> {
    if ss == [] then []
    else
      var s := ss[|ss| - 1];
      EntryRows(ss[..|ss| - 1]) + if s.InsertEntry? then [s.entry] else []
  }

  lemma {:induction false} RowsAreStatements(ss: seq<Statement>, t: Transaction, e: Entry)
    ensures multiset(TransactionRows(ss))[t] == multiset(ss)[InsertTransaction(t)]
    ensures multiset(EntryRows(ss))[e] == multiset(ss)[InsertEntry(e)]
  {
    if ss != [] {
      assert ss == ss[..|ss| - 1] + [ss[|ss| - 1]];
      RowsAreStatements(ss[..|ss| - 1], t, e);
    }
  }

  predicate Active(t: Tables, a: UUID) {
    a in t.accounts && !t.accounts[a].deleted
  }

  lemma AdjustEffect(t: Tables, s: Statement, a: UUID)
    requires !Rejected(t, s) && Active(t, a)
    ensures Active(Execute(t, s), a)
    ensures Execute(t, s).accounts[a].balance == t.accounts[a].balance + Weight(s, Raise, a) - Weight(s, Lower, a)
    ensures Execute(t, s).accounts[a].version == t.accounts[a].version + Weight(s, Uses, a)
  {
  }

  /** Whenever all statements succeed, every active account has moved by exactly its own sums. */
  lemma {:induction false} ExecutionEffect(t: Tables, ss: seq<Statement>, a: UUID)
    requires ExecuteAll(t, ss).1 && Active(t, a)
    ensures var u := ExecuteAll(t, ss).0;
            && Active(u, a)
            && u.accounts[a].balance == t.accounts[a].balance + SumOf(ss, Raise, a) - SumOf(ss, Lower, a)
            && u.accounts[a].version == t.accounts[a].version + SumOf(ss, Uses, a)
  {
    hide Weight, Rejected, Execute, Active;
    if ss != [] {
      ExecutionEffect(t, ss[..|ss| - 1], a);
      AdjustEffect(ExecuteAll(t, ss[..|ss| - 1]).0, ss[|ss| - 1], a);
    }
  }

  /** A missing or soft-deleted account is not touched at all. */
  lemma {:induction false} InactiveUntouched(t: Tables, ss: seq<Statement>, a: UUID)
    requires !Active(t, a)
    ensures var u := ExecuteAll(t, ss).0;
            !Active(u, a) && (a in u.accounts <==> a in t.accounts)
            && (a in t.accounts ==> u.accounts[a] == t.accounts[a])
  {
    if ss != [] {
      InactiveUntouched(t, ss[..|ss| - 1], a);
    }
  }

  lemma ExecuteRows(t: Tables, s: Statement)
    requires !Rejected(t, s)
    ensures Execute(t, s).transactions == t.transactions + TransactionRows([s])
    ensures Execute(t, s).entries == t.entries + EntryRows([s])
    ensures Execute(t, s).accounts.Keys == t.accounts.Keys
  {
    assert [s][..0] == [];
  }

  lemma {:induction false} ExecutionRows(t: Tables, ss: seq<Statement>)
    requires ExecuteAll(t, ss).1
    ensures var u := ExecuteAll(t, ss).0;
            && u.transactions == t.transactions + TransactionRows(ss)
            && u.entries == t.entries + EntryRows(ss)
            && u.accounts.Keys == t.accounts.Keys
  {
    hide Rejected, Execute;
    if ss != [] {
      var s := ss[|ss| - 1];
      ExecutionRows(t, ss[..|ss| - 1]);
      ExecuteRows(ExecuteAll(t, ss[..|ss| - 1]).0, s);
      assert [s][..0] == [];
    }
  }

  /** The same accounts, and the same rows up to their order. */
  ghost predicate SameOutcome(u: Tables, v: Tables) {
    && u.accounts == v.accounts
    && multiset(u.transactions) == multiset(v.transactions)
    && multiset(u.entries) == multiset(v.entries)
  }

  lemma SameRows(xs: seq<Statement>, ys: seq<Statement>)
    requires multiset(xs) == multiset(ys)
    ensures multiset(TransactionRows(xs)) == multiset(TransactionRows(ys))
    ensures multiset(EntryRows(xs)) == multiset(EntryRows(ys))
  {
    hide TransactionRows, EntryRows;
    var anyRow, anyEntry := Transaction(NIL, NIL, "", 0, NIL), Entry(NIL, NIL, EntryInput(NIL, Debit, 0));
    forall row ensures multiset(TransactionRows(xs))[row] == multiset(TransactionRows(ys))[row] {
      RowsAreStatements(xs, row, anyEntry);
      RowsAreStatements(ys, row, anyEntry);
    }
    forall row ensures multiset(EntryRows(xs))[row] == multiset(EntryRows(ys))[row] {
      RowsAreStatements(xs, anyRow, row);
      RowsAreStatements(ys, anyRow, row);
    }
  }

  lemma SameAccount(t: Tables, xs: seq<Statement>, ys: seq<Statement>, a: UUID)
    requires multiset(xs) == multiset(ys) && ExecuteAll(t, xs).1 && ExecuteAll(t, ys).1 && a in t.accounts
    ensures var u, v := ExecuteAll(t, xs).0, ExecuteAll(t, ys).0;
            a in u.accounts && a in v.accounts && u.accounts[a] == v.accounts[a]
  {
    hide ExecuteAll, SumOf;
    if Active(t, a) {
      ExecutionEffect(t, xs, a);
      ExecutionEffect(t, ys, a);
      SumOfPermutation(xs, ys, Raise, a);
      SumOfPermutation(xs, ys, Lower, a);
      SumOfPermutation(xs, ys, Uses, a);
    } else {
      InactiveUntouched(t, xs, a);
      InactiveUntouched(t, ys, a);
    }
  }

  /** Two orders of the same statements that both succeed end alike. */
  lemma OrderIsInvisible(t: Tables, xs: seq<Statement>, ys: seq<Statement>)
    requires multiset(xs) == multiset(ys) && ExecuteAll(t, xs).1 && ExecuteAll(t, ys).1
    ensures SameOutcome(ExecuteAll(t, xs).0, ExecuteAll(t, ys).0)
  {
    hide ExecuteAll, TransactionRows, EntryRows;
    ExecutionRows(t, xs);
    ExecutionRows(t, ys);
    forall a <- t.accounts ensures ExecuteAll(t, xs).0.accounts[a] == ExecuteAll(t, ys).0.accounts[a] {
      SameAccount(t, xs, ys, a);
    }
    SameRows(xs, ys);
  }

  // ---------- Headroom ----------

  /** Statements that only name active accounts and insert what the constraints admit. */
  predicate WellFormed(t: Tables, s: Statement) {
    match s
    case InsertTransaction(_) => true
    case InsertEntry(e) => !e.line.entryType.Other? && e.line.amount > 0 && Active(t, e.line.accountId)
    case AdjustBalance(a, _) => Active(t, a)
  }

  /** Room above for everything that raises a, below for everything that lowers it, and in its version. */
  predicate Room(t: Tables, ss: seq<Statement>, a: UUID) {
    Active(t, a) ==>
      && t.accounts[a].balance + SumOf(ss, Raise, a) <= MAX_INT64
      && t.accounts[a].balance - SumOf(ss, Lower, a) >= MIN_INT64
      && t.accounts[a].version + SumOf(ss, Uses, a) <= MAX_INT32
  }

  ghost predicate Headroom(t: Tables, ss: seq<Statement>) {
    forall a :: Room(t, ss, a)
  }

  lemma {:induction false} AccountsStayActive(t: Tables, ss: seq<Statement>, a: UUID)
    ensures Active(ExecuteAll(t, ss).0, a) <==> Active(t, a)
  {
    if ss != [] {
      AccountsStayActive(t, ss[..|ss| - 1], a);
    }
  }

  lemma RoomForFront(t: Tables, ss: seq<Statement>, a: UUID)
    requires ss != [] && Room(t, ss, a)
    ensures Room(t, ss[..|ss| - 1], a)
  {
  }

  lemma RoomForLast(t: Tables, ss: seq<Statement>)
    requires ss != [] && ExecuteAll(t, ss[..|ss| - 1]).1
    requires WellFormed(t, ss[|ss| - 1])
    requires forall a :: Room(t, ss, a)
    ensures !Rejected(ExecuteAll(t, ss[..|ss| - 1]).0, ss[|ss| - 1])
  {
    hide ExecuteAll;
    var front, s := ss[..|ss| - 1], ss[|ss| - 1];
    if !s.InsertTransaction? {
      var a := if s.InsertEntry? then s.entry.line.accountId else s.accountId;
      ExecutionEffect(t, front, a);
      assert Room(t, ss, a);
    }
  }

  /** With headroom every order of the statements succeeds. */
  lemma {:induction false} HeadroomSuffices(t: Tables, ss: seq<Statement>)
    requires (forall s <- ss :: WellFormed(t, s)) && Headroom(t, ss)
    ensures ExecuteAll(t, ss).1
  {
    hide Rejected, Execute, WellFormed, Room;
    if ss != [] {
      var front := ss[..|ss| - 1];
      forall a ensures Room(t, front, a) {
        RoomForFront(t, ss, a);
      }
      HeadroomSuffices(t, front);
      RoomForLast(t, ss);
    }
  }

  function Only(ss: seq<Statement>, m: Measure, a: UUID, yes: bool): seq<Statement> {
    if ss == [] then []
    else
      var s := ss[|ss| - 1];
      Only(ss[..|ss| - 1], m, a, yes) + if (Weight(s, m, a) > 0) == yes then [s] else []
  }

  lemma {:induction false} OnlyPartitions(ss: seq<Statement>, m: Measure, a: UUID)
    ensures multiset(Only(ss, m, a, true)) + multiset(Only(ss, m, a, false)) == multiset(ss)
  {
    hide Weight;
    if ss != [] {
      assert ss == ss[..|ss| - 1] + [ss[|ss| - 1]];
      OnlyPartitions(ss[..|ss| - 1], m, a);
    }
  }

  /** The selected statements carry the whole sum, and nothing in the opposite direction. */
  lemma {:induction false} OnlySums(ss: seq<Statement>, m: Measure, a: UUID)
    ensures SumOf(Only(ss, m, a, true), m, a) == SumOf(ss, m, a)
    ensures m == Raise ==> SumOf(Only(ss, m, a, true), Lower, a) == 0
    ensures m == Lower ==> SumOf(Only(ss, m, a, true), Raise, a) == 0
  {
    if ss != [] {
      var front, s := ss[..|ss| - 1], ss[|ss| - 1];
      OnlySums(front, m, a);
      OneDirection(s, a);
      hide Weight;
      var chosen := Only(front, m, a, true);
      if Weight(s, m, a) > 0 {
        assert Only(ss, m, a, true)[..|chosen|] == chosen;
      } else {
        assert Only(ss, m, a, true) == chosen;
      }
    }
  }

  lemma OneDirection(s: Statement, a: UUID)
    ensures Weight(s, Raise, a) == 0 || Weight(s, Lower, a) == 0
  {
  }

  lemma {:induction false} FrontSucceeds(t: Tables, xs: seq<Statement>, ys: seq<Statement>)
    requires ExecuteAll(t, xs + ys).1
    ensures ExecuteAll(t, xs).1
  {
    if ys == [] {
      assert xs + ys == xs;
    } else {
      assert (xs + ys)[..|xs + ys| - 1] == xs + ys[..|ys| - 1];
      FrontSucceeds(t, xs, ys[..|ys| - 1]);
    }
  }

  ghost predicate AnyOrderSucceeds(t: Tables, ss: seq<Statement>) {
    forall order: seq<Statement> | multiset(order) == multiset(ss) :: ExecuteAll(t, order).1
  }

  /** The order that runs first whatever moves account a in one direction. */
  lemma AdverseOrder(t: Tables, ss: seq<Statement>, a: UUID, m: Measure)
    requires AnyOrderSucceeds(t, ss) && Active(t, a)
    ensures m == Raise ==> t.accounts[a].balance + SumOf(ss, Raise, a) <= MAX_INT64
    ensures m == Lower ==> t.accounts[a].balance - SumOf(ss, Lower, a) >= MIN_INT64
  {
    var first, rest := Only(ss, m, a, true), Only(ss, m, a, false);
    OnlyPartitions(ss, m, a);
    OnlySums(ss, m, a);
    assert multiset(first + rest) == multiset(ss);
    assert ExecuteAll(t, first + rest).1;
    FrontSucceeds(t, first, rest);
    ExecutionEffect(t, first, a);
  }

  lemma {:induction false} VersionsWithinInt32(t: Tables, ss: seq<Statement>, a: UUID)
    requires ExecuteAll(t, ss).1 && Active(t, a) && t.accounts[a].version <= MAX_INT32
    ensures ExecuteAll(t, ss).0.accounts.Keys == t.accounts.Keys
    ensures Active(ExecuteAll(t, ss).0, a) && ExecuteAll(t, ss).0.accounts[a].version <= MAX_INT32
  {
    if ss != [] {
      VersionsWithinInt32(t, ss[..|ss| - 1], a);
    }
  }

  /** Headroom is exactly what it takes for all orders of the statements to succeed. */
  lemma HeadroomIsExact(t: Tables, ss: seq<Statement>)
    requires forall s <- ss :: WellFormed(t, s)
    requires forall a <- t.accounts :: t.accounts[a].version <= MAX_INT32
    ensures Headroom(t, ss) <==> AnyOrderSucceeds(t, ss)
  {
    if Headroom(t, ss) {
      hide ExecuteAll, WellFormed, Headroom;
      forall order: seq<Statement> | multiset(order) == multiset(ss) ensures ExecuteAll(t, order).1 {
        OrderKeepsHeadroom(t, ss, order);
        HeadroomSuffices(t, order);
      }
    }
    if AnyOrderSucceeds(t, ss) {
      forall a ensures Room(t, ss, a) {
        AnyOrderNeedsRoom(t, ss, a);
      }
    }
  }

  lemma AnyOrderNeedsRoom(t: Tables, ss: seq<Statement>, a: UUID)
    requires AnyOrderSucceeds(t, ss)
    requires forall a <- t.accounts :: t.accounts[a].version <= MAX_INT32
    ensures Room(t, ss, a)
  {
    if Active(t, a) {
      AdverseOrder(t, ss, a, Raise);
      AdverseOrder(t, ss, a, Lower);
      assert ExecuteAll(t, ss).1;
      hide ExecuteAll, SumOf;
      ExecutionEffect(t, ss, a);
      VersionsWithinInt32(t, ss, a);
    }
  }

  lemma OrderKeepsHeadroom(t: Tables, ss: seq<Statement>, order: seq<Statement>)
    requires multiset(order) == multiset(ss) && Headroom(t, ss)
    requires forall s <- ss :: WellFormed(t, s)
    ensures Headroom(t, order) && forall s <- order :: WellFormed(t, s)
  {
    hide WellFormed, SumOf;
    forall a ensures Room(t, order, a) {
      assert Room(t, ss, a);
      SumOfPermutation(ss, order, Raise, a);
      SumOfPermutation(ss, order, Lower, a);
      SumOfPermutation(ss, order, Uses, a);
    }
    forall s <- order ensures WellFormed(t, s) {
      assert s in multiset(order);
      assert s in ss;
    }
  }
}
