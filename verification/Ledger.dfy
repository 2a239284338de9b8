/** The double-entry ledger on values: what one post does, and what every run of posts keeps. */
module Ledger {
  import opened Wrappers
  import opened MachineInt
  import opened Uuid

  /** Any string may arrive as an entry type; only two of them move money. */
  datatype EntryType = Debit | Credit | Other(name: string)

  /** The caller's part of an entry. */
  datatype EntryInput = EntryInput(accountId: UUID, entryType: EntryType, amount: Int64)

  datatype PostInput = PostInput(description: string, date: int, entries: seq<EntryInput>)

  datatype Transaction = Transaction(id: UUID, householdId: UUID, description: string, date: int, createdBy: UUID)

  datatype Entry = Entry(id: UUID, transactionId: UUID, line: EntryInput)

  /** A transaction with its entries. */
  datatype Record = Record(transaction: Transaction, entries: seq<Entry>)

  datatype LedgerError = InvalidInput | InvalidAmount(index: nat) | Unbalanced

  /** The three collections of the in-memory repository. */
  datatype Book = Book(transactions: seq<Transaction>, entries: seq<Entry>, balances: map<UUID, Int64>)

  /** One call with the ids that uuid.New hands out while it is served. */
  datatype Post = Post(householdId: UUID, input: PostInput, callerId: UUID, txId: UUID, entryIds: seq<UUID>,
                       viaLogic: bool) {
    predicate Supplied() {
      |entryIds| == |input.entries|
    }
  }

  const EMPTY := Book([], [], map[])

  // ---------- Sums ----------

  function Debits(lines: seq<EntryInput>): int {
    if lines == [] then 0
    else Debits(lines[..|lines| - 1]) + var l := lines[|lines| - 1]; if l.entryType.Debit? then l.amount else 0
  }

  function Credits(lines: seq<EntryInput>): int {
    if lines == [] then 0
    else Credits(lines[..|lines| - 1]) + var l := lines[|lines| - 1]; if l.entryType.Credit? then l.amount else 0
  }

  function Signed(l: EntryInput): int {
    match l.entryType
    case Credit => l.amount
    case Debit => 0 - l.amount
    case Other(_) => 0
  }

  /** Credits minus debits of one account. */
  function Delta(lines: seq<EntryInput>, a: UUID): int {
    if lines == [] then 0
    else Delta(lines[..|lines| - 1], a) + var l := lines[|lines| - 1]; if l.accountId == a then Signed(l) else 0
  }

  /** The balance test compares sums that were accumulated in int64. */
  predicate Balanced(lines: seq<EntryInput>) {
    Wrap(Debits(lines)) == Wrap(Credits(lines))
  }

  /** The test passes exactly when credits and debits differ by a multiple of 2^64; it is the equality that
      the ledger promises if and only if they differ by less than 2^64. */
  lemma BalancedIsExact(lines: seq<EntryInput>)
    ensures Balanced(lines) <==> (Credits(lines) - Debits(lines)) % TWO_TO_64 == 0
    ensures Balanced(lines) ==>
              (Credits(lines) == Debits(lines) <==> -TWO_TO_64 < Credits(lines) - Debits(lines) < TWO_TO_64)
  {
    hide Credits, Debits, Wrap;
    CongruentByWrap(Credits(lines), Debits(lines));
  }

  /** LedgerLogic accepts four credits of 2^62 without any debit: their int64 sum is 0. */
  lemma UnbalancedPostIsAccepted(p: Post, into: UUID)
    requires p.Supplied() && p.viaLogic && p.input.description != ""
    requires var quarter: Int64 := 0x4000_0000_0000_0000;
             var e := EntryInput(into, Credit, quarter); p.input.entries == [e, e, e, e]
    ensures Verdict(p) == None
    ensures Debits(p.input.entries) == 0 && Credits(p.input.entries) == TWO_TO_64
  {
    var e := p.input.entries;
    assert e[..3][..2] == e[..2] && e[..2][..1] == e[..1] && e[..1][..0] == [];
    assert Credits(e[..1]) == e[0].amount && Credits(e[..2]) == 2 * e[0].amount && Credits(e[..3]) == 3 * e[0].amount;
    assert Debits(e[..1]) == 0 && Debits(e[..2]) == 0 && Debits(e[..3]) == 0;
    assert FirstNotPositive(e) == |e|;
  }

  function BalanceOf(m: map<UUID, Int64>, a: UUID): Int64 {
    if a in m then m[a] else 0
  }

  // ---------- One post ----------

  function ApplyLine(m: map<UUID, Int64>, l: EntryInput): map<UUID, Int64> {
    match l.entryType
    case Credit => m[l.accountId := Wrap(BalanceOf(m, l.accountId) + l.amount)]
    case Debit => m[l.accountId := Wrap(BalanceOf(m, l.accountId) - l.amount)]
    case Other(_) => m
  }

  function ApplyLines(m: map<UUID, Int64>, lines: seq<EntryInput>): map<UUID, Int64> {
    if lines == [] then m else ApplyLine(ApplyLines(m, lines[..|lines| - 1]), lines[|lines| - 1])
  }

  function NewEntries(txId: UUID, lines: seq<EntryInput>, ids: seq<UUID>): (es: seq<Entry>)
    requires |ids| == |lines|
    ensures |es| == |lines|
    ensures forall i | 0 <= i < |es| :: es[i] == Entry(ids[i], txId, lines[i])
  {
    seq(|lines|, i requires 0 <= i < |lines| => Entry(ids[i], txId, lines[i]))
  }

  function Posted(p: Post): Record
    requires p.Supplied()
  {
    Record(Transaction(p.txId, p.householdId, p.input.description, p.input.date, p.callerId),
           NewEntries(p.txId, p.input.entries, p.entryIds))
  }

  function FirstNotPositive(lines: seq<EntryInput>): (k: nat)
    ensures k <= |lines| && forall i | 0 <= i < k :: lines[i].amount > 0
    ensures k < |lines| ==> lines[k].amount <= 0
  {
    if lines == [] || lines[0].amount <= 0 then 0 else 1 + FirstNotPositive(lines[1..])
  }

  /** LedgerLogic validates before it reaches the repository. */
  function Verdict(p: Post): Option<LedgerError> {
    var lines := p.input.entries;
    if p.viaLogic && (p.input.description == "" || lines == []) then Some(InvalidInput)
    else if p.viaLogic && FirstNotPositive(lines) < |lines| then Some(InvalidAmount(FirstNotPositive(lines)))
    else if !Balanced(lines) then Some(Unbalanced)
    else None
  }

  /** What makes a post acceptable, in terms of its content only. */
  predicate Acceptable(p: Post) {
    var lines := p.input.entries;
    && (p.viaLogic ==> p.input.description != "" && lines != [] && forall l <- lines :: l.amount > 0)
    && (Credits(lines) - Debits(lines)) % TWO_TO_64 == 0
  }

  predicate FirstDefect(lines: seq<EntryInput>, k: nat) {
    k < |lines| && lines[k].amount <= 0 && forall i | 0 <= i < k :: lines[i].amount > 0
  }

  /** A post is accepted exactly if it is acceptable; otherwise the first defect is reported: a missing
      description or entry, then the first amount that is not positive, then the imbalance. */
  lemma VerdictIsExact(p: Post)
    ensures var lines := p.input.entries;
            var missing := p.viaLogic && (p.input.description == "" || lines == []);
            var amounts := forall l <- lines :: l.amount > 0;
            && (Verdict(p).None? <==> Acceptable(p))
            && (Verdict(p) == Some(InvalidInput) <==> missing)
            && (Verdict(p) == Some(Unbalanced) <==>
                  !missing && (p.viaLogic ==> amounts) && (Credits(lines) - Debits(lines)) % TWO_TO_64 != 0)
            && (forall k: nat :: Verdict(p) == Some(InvalidAmount(k)) <==>
                  p.viaLogic && !missing && FirstDefect(lines, k))
  {
    hide Credits, Debits, Balanced;
    BalancedIsExact(p.input.entries);
    var lines := p.input.entries;
    var f := FirstNotPositive(lines);
    if f == |lines| {
      assert forall l <- lines :: l.amount > 0;
    } else {
      assert lines[f] in lines;
    }
  }

  /** The ordinary transfer: one debit and one credit of the same positive amount. */
  lemma TransferIsAccepted(p: Post, from: UUID, into: UUID, amount: Int64)
    requires amount > 0 && p.input.description != ""
    requires p.input.entries == [EntryInput(from, Debit, amount), EntryInput(into, Credit, amount)]
    ensures Verdict(p) == None
    ensures Credits(p.input.entries) == amount == Debits(p.input.entries)
  {
    var e := p.input.entries;
    assert e[..1][..0] == [];
    assert Debits(e[..1]) == amount && Credits(e[..1]) == 0;
    hide Verdict, Credits, Debits;
    VerdictIsExact(p);
  }

  function Step(b: Book, p: Post): (Book, Result<Record, LedgerError>)
    requires p.Supplied()
  {
    match Verdict(p)
    case Some(e) => (b, Err(e))
    case None =>
      var r := Posted(p);
      (Book(b.transactions + [r.transaction], b.entries + r.entries, ApplyLines(b.balances, p.input.entries)), Ok(r))
  }

  // ---------- Runs ----------

  predicate AllSupplied(ps: seq<Post>) {
    forall i | 0 <= i < |ps| :: ps[i].Supplied()
  }

  /** uuid.New never returns an id twice. */
  predicate FreshIds(ps: seq<Post>) {
    forall i, j | 0 <= i < j < |ps| :: ps[i].txId != ps[j].txId
  }

  function Run(ps: seq<Post>): Book
    requires AllSupplied(ps)
  {
    if ps == [] then EMPTY else Step(Run(ps[..|ps| - 1]), ps[|ps| - 1]).0
  }

  /** What the successful posts of a run returned to their callers, in order. */
  function Receipts(ps: seq<Post>): seq<Record>
    requires AllSupplied(ps)
  {
    if ps == [] then []
    else
      var earlier := Receipts(ps[..|ps| - 1]);
      match Step(Run(ps[..|ps| - 1]), ps[|ps| - 1]).1
      case Ok(r) => earlier + [r]
      case Err(_) => earlier
  }

  function Lines(es: seq<Entry>): (ls: seq<EntryInput>)
    ensures |ls| == |es| && forall i | 0 <= i < |es| :: ls[i] == es[i].line
  {
    seq(|es|, i requires 0 <= i < |es| => es[i].line)
  }

  // ---------- Cache agreement ----------

  lemma RunUnfolds(ps: seq<Post>)
    requires AllSupplied(ps) && ps != []
    ensures Run(ps) == Step(Run(ps[..|ps| - 1]), ps[|ps| - 1]).0
  {
    hide Step;
  }

  lemma {:induction false} ApplyLinesAppend(m: map<UUID, Int64>, xs: seq<EntryInput>, ys: seq<EntryInput>)
    ensures ApplyLines(m, xs + ys) == ApplyLines(ApplyLines(m, xs), ys)
  {
    if ys == [] {
      assert xs + ys == xs;
    } else {
      assert (xs + ys)[..|xs + ys| - 1] == xs + ys[..|ys| - 1];
      ApplyLinesAppend(m, xs, ys[..|ys| - 1]);
    }
  }

  lemma BalanceAfterLine(m: map<UUID, Int64>, l: EntryInput, a: UUID)
    ensures BalanceOf(ApplyLine(m, l), a) == Wrap(BalanceOf(m, a) + if l.accountId == a then Signed(l) else 0)
  {
  }

  lemma {:induction false} BalanceIsFold(m: map<UUID, Int64>, lines: seq<EntryInput>, a: UUID)
    ensures BalanceOf(ApplyLines(m, lines), a) == Wrap(BalanceOf(m, a) + Delta(lines, a))
  {
    hide BalanceOf, ApplyLine, Signed, Wrap;
    if lines != [] {
      var front, l := lines[..|lines| - 1], lines[|lines| - 1];
      BalanceIsFold(m, front, a);
      BalanceAfterLine(ApplyLines(m, front), l, a);
      WrapOfSum(BalanceOf(m, a) + Delta(front, a), if l.accountId == a then Signed(l) else 0);
    }
  }

  /** The lines a post adds to the book. */
  function Added(p: Post): seq<EntryInput> {
    if Verdict(p).None? then p.input.entries else []
  }

  lemma StepAppends(b: Book, p: Post)
    requires p.Supplied()
    ensures Lines(Step(b, p).0.entries) == Lines(b.entries) + Added(p)
    ensures Step(b, p).0.balances == ApplyLines(b.balances, Added(p))
  {
  }

  predicate Replayed(b: Book) {
    b.balances == ApplyLines(map[], Lines(b.entries))
  }

  lemma StepKeepsReplayed(b: Book, p: Post)
    requires p.Supplied() && Replayed(b)
    ensures Replayed(Step(b, p).0)
  {
    hide Step, ApplyLines, Added, Lines;
    StepAppends(b, p);
    ApplyLinesAppend(map[], Lines(b.entries), Added(p));
  }

  /** The balance map is what replaying every stored entry produces. */
  lemma {:induction false} BalancesReplayEntries(ps: seq<Post>)
    requires AllSupplied(ps)
    ensures Replayed(Run(ps))
  {
    hide Step;
    if ps == [] {
      assert Lines([]) == [];
    } else {
      hide Replayed;
      BalancesReplayEntries(ps[..|ps| - 1]);
      StepKeepsReplayed(Run(ps[..|ps| - 1]), ps[|ps| - 1]);
    }
  }

  /** GetBalance of any account, posted to or not, is the int64 value of its credits minus debits. */
  lemma CacheAgreement(ps: seq<Post>, a: UUID)
    requires AllSupplied(ps)
    ensures BalanceOf(Run(ps).balances, a) == Wrap(Delta(Lines(Run(ps).entries), a))
  {
    hide Wrap, Delta, ApplyLines, Run;
    BalancesReplayEntries(ps);
    BalanceIsFold(map[], Lines(Run(ps).entries), a);
  }

  // ---------- Conservation ----------

  /** The sum of all amounts, one for each account of the map. */
  ghost function Total(m: map<UUID, int>): int
    decreases |m|
  {
    if m == map[] then 0
    else
      var a :| a in m;
      m[a] + Total(m - {a})
  }

  lemma {:induction false} TotalWithout(m: map<UUID, int>, a: UUID)
    requires a in m
    ensures Total(m) == m[a] + Total(m - {a})
    decreases |m|
  {
    var b :| b in m && Total(m) == m[b] + Total(m - {b});
    if a != b {
      TotalWithout(m - {b}, a);
      TotalWithout(m - {a}, b);
      assert m - {a} - {b} == m - {b} - {a};
    }
  }

  lemma TotalOfUpdate(m: map<UUID, int>, a: UUID, v: int)
    ensures Total(m[a := v]) == Total(m) - (if a in m then m[a] else 0) + v
  {
    TotalWithout(m[a := v], a);
    if a in m {
      TotalWithout(m, a);
      assert m[a := v] - {a} == m - {a};
    } else {
      assert m[a := v] - {a} == m;
    }
  }

  predicate Congruent(x: int, y: int) {
    (x - y) % TWO_TO_64 == 0
  }

  lemma CongruentStep(x: int, y: int, z: int, d: int)
    requires Congruent(x, y + d) && Congruent(y, z)
    ensures Congruent(x, z + d)
  {
  }

  lemma CongruentByWrap(x: int, y: int)
    ensures Congruent(x, y) <==> Wrap(x) == Wrap(y)
  {
    var p, q := (x - MIN_INT64) / TWO_TO_64, (y - MIN_INT64) / TWO_TO_64;
    assert Wrap(x) == x - TWO_TO_64 * p && Wrap(y) == y - TWO_TO_64 * q;
    if Congruent(x, y) {
      var k := (x - y) / TWO_TO_64;
      WrapIsUnique(x, Wrap(y), -q - k);
    }
    if Wrap(x) == Wrap(y) {
      assert x - y == TWO_TO_64 * (p - q);
    }
  }

  lemma TotalAfterLine(m: map<UUID, Int64>, l: EntryInput)
    ensures Congruent(Total(ApplyLine(m, l)), Total(m) + Signed(l))
    ensures Fits(BalanceOf(m, l.accountId) + Signed(l)) ==> Total(ApplyLine(m, l)) == Total(m) + Signed(l)
  {
    hide Total;
    TotalOfUpdate(m, l.accountId, Wrap(BalanceOf(m, l.accountId) + Signed(l)));
  }

  lemma {:induction false} TotalIsCongruent(lines: seq<EntryInput>)
    ensures Congruent(Total(ApplyLines(map[], lines)), Credits(lines) - Debits(lines))
  {
    if lines == [] {
      assert Total(map[]) == 0;
    } else {
      hide Congruent, Total, ApplyLine;
      var front, l := lines[..|lines| - 1], lines[|lines| - 1];
      TotalIsCongruent(front);
      var m := ApplyLines(map[], front);
      TotalAfterLine(m, l);
      CongruentStep(Total(ApplyLine(m, l)), Total(m), Credits(front) - Debits(front), Signed(l));
    }
  }

  lemma {:induction false} SumsAppend(xs: seq<EntryInput>, ys: seq<EntryInput>)
    ensures Credits(xs + ys) == Credits(xs) + Credits(ys)
    ensures Debits(xs + ys) == Debits(xs) + Debits(ys)
  {
    if ys == [] {
      assert xs + ys == xs;
    } else {
      assert (xs + ys)[..|xs + ys| - 1] == xs + ys[..|ys| - 1];
      SumsAppend(xs, ys[..|ys| - 1]);
    }
  }

  lemma AddedIsBalanced(p: Post)
    ensures Congruent(Credits(Added(p)), Debits(Added(p)))
  {
    CongruentByWrap(Credits(Added(p)), Debits(Added(p)));
  }

  lemma CongruentSum(x: int, y: int, u: int, v: int)
    requires Congruent(x, y) && Congruent(u, v)
    ensures Congruent(x + u, y + v)
  {
  }

  predicate EntriesBalance(b: Book) {
    Congruent(Credits(Lines(b.entries)), Debits(Lines(b.entries)))
  }

  lemma StepKeepsEntriesBalanced(b: Book, p: Post)
    requires p.Supplied() && EntriesBalance(b)
    ensures EntriesBalance(Step(b, p).0)
  {
    hide Step, Congruent, Credits, Debits, Added, Lines;
    var lines := Lines(b.entries);
    StepAppends(b, p);
    SumsAppend(lines, Added(p));
    AddedIsBalanced(p);
    CongruentSum(Credits(lines), Debits(lines), Credits(Added(p)), Debits(Added(p)));
  }

  lemma {:induction false} StoredEntriesBalance(ps: seq<Post>)
    requires AllSupplied(ps)
    ensures EntriesBalance(Run(ps))
  {
    hide Step, Congruent, EntriesBalance;
    if ps == [] {
      EmptyBalances();
    } else {
      StoredEntriesBalance(ps[..|ps| - 1]);
      StepKeepsEntriesBalanced(Run(ps[..|ps| - 1]), ps[|ps| - 1]);
    }
  }

  lemma EmptyBalances()
    ensures EntriesBalance(EMPTY)
  {
    assert Lines([]) == [];
  }

  /** Whatever is posted, through the logic layer or straight to the repository, with repeated accounts,
      wrapping sums, negative amounts or unknown entry types, all balances together stay 0 modulo 2^64. */
  lemma Conservation(ps: seq<Post>)
    requires AllSupplied(ps)
    ensures Congruent(Total(Run(ps).balances), 0)
  {
    hide Wrap, Run, ApplyLines, Credits, Debits, Total, Lines;
    BalancesReplayEntries(ps);
    TotalIsCongruent(Lines(Run(ps).entries));
    StoredEntriesBalance(ps);
  }

  predicate AllPositive(lines: seq<EntryInput>) {
    forall i | 0 <= i < |lines| :: lines[i].amount > 0
  }

  lemma {:induction false} DeltaWithinSums(lines: seq<EntryInput>, a: UUID)
    requires AllPositive(lines)
    ensures 0 - Debits(lines) <= Delta(lines, a) <= Credits(lines)
    ensures Debits(lines) >= 0 && Credits(lines) >= 0
  {
    if lines != [] {
      DeltaWithinSums(lines[..|lines| - 1], a);
    }
  }

  lemma {:induction false} LogicPostsArePositive(ps: seq<Post>)
    requires AllSupplied(ps) && forall i | 0 <= i < |ps| :: ps[i].viaLogic
    ensures AllPositive(Lines(Run(ps).entries))
  {
    if ps != [] {
      LogicPostsArePositive(ps[..|ps| - 1]);
    }
  }

  // ---------- Exact conservation ----------

  /** The exact credits minus debits of every account that has a balance. */
  function ExactBalances(lines: seq<EntryInput>): map<UUID, int> {
    map a | a in ApplyLines(map[], lines) :: Delta(lines, a)
  }

  /** What each balance has lost by wrapping: a multiple of 2^64, and 0 exactly while it fits. */
  function Losses(lines: seq<EntryInput>): map<UUID, int> {
    map a | a in ApplyLines(map[], lines) :: Delta(lines, a) - Wrap(Delta(lines, a))
  }

  lemma {:induction false} NoBalanceNoDelta(lines: seq<EntryInput>, a: UUID)
    requires a !in ApplyLines(map[], lines)
    ensures Delta(lines, a) == 0
  {
    hide Wrap;
    if lines != [] {
      NoBalanceNoDelta(lines[..|lines| - 1], a);
    }
  }

  lemma ExactAfterLine(lines: seq<EntryInput>)
    requires lines != []
    ensures var front, l := lines[..|lines| - 1], lines[|lines| - 1];
            ExactBalances(lines) == if l.entryType.Other? then ExactBalances(front)
                                    else ExactBalances(front)[l.accountId := Delta(front, l.accountId) + Signed(l)]
  {
    hide Wrap;
  }

  lemma ExactLookup(lines: seq<EntryInput>, a: UUID)
    ensures (if a in ExactBalances(lines) then ExactBalances(lines)[a] else 0) == Delta(lines, a)
  {
    hide Delta, ApplyLines;
    if a !in ApplyLines(map[], lines) {
      NoBalanceNoDelta(lines, a);
    }
  }

  lemma NetOfLast(lines: seq<EntryInput>)
    requires lines != []
    ensures var front := lines[..|lines| - 1];
            Credits(lines) - Debits(lines) == Credits(front) - Debits(front) + Signed(lines[|lines| - 1])
  {
  }

  lemma LineMovesTotal(lines: seq<EntryInput>)
    requires lines != []
    ensures Total(ExactBalances(lines)) ==
            Total(ExactBalances(lines[..|lines| - 1])) + Signed(lines[|lines| - 1])
  {
    hide Total, ExactBalances, Delta;
    var front, l := lines[..|lines| - 1], lines[|lines| - 1];
    ExactAfterLine(lines);
    ExactLookup(front, l.accountId);
    TotalOfUpdate(ExactBalances(front), l.accountId, Delta(front, l.accountId) + Signed(l));
  }

  lemma NoLineNoBalance()
    ensures Total(ExactBalances([])) == 0 && Credits([]) == 0 && Debits([]) == 0
  {
    assert ExactBalances([]) == map[];
  }

  /** The exact balances add up to all credits minus all debits. */
  lemma {:induction false} TotalOfExactBalances(lines: seq<EntryInput>)
    ensures Total(ExactBalances(lines)) == Credits(lines) - Debits(lines)
  {
    hide Total, ExactBalances, Credits, Debits, Signed;
    if lines == [] {
      NoLineNoBalance();
    } else {
      TotalOfExactBalances(lines[..|lines| - 1]);
      NetOfLast(lines);
      LineMovesTotal(lines);
    }
  }

  lemma {:induction false} TotalOfSum(m: map<UUID, int>, n: map<UUID, int>, p: map<UUID, int>)
    requires m.Keys == n.Keys == p.Keys && forall a <- p :: p[a] == m[a] + n[a]
    ensures Total(p) == Total(m) + Total(n)
    decreases |p|
  {
    if p == map[] {
      assert m == map[] && n == map[];
    } else {
      var a :| a in p;
      TotalWithout(p, a);
      TotalWithout(m, a);
      TotalWithout(n, a);
      TotalOfSum(m - {a}, n - {a}, p - {a});
    }
  }

  lemma {:induction false} TotalOfZeros(m: map<UUID, int>)
    requires forall a <- m :: m[a] == 0
    ensures Total(m) == 0
    decreases |m|
  {
    if m != map[] {
      var a :| a in m;
      TotalWithout(m, a);
      TotalOfZeros(m - {a});
    }
  }

  lemma BalancesPlusLosses(lines: seq<EntryInput>)
    ensures Total(ApplyLines(map[], lines)) == Credits(lines) - Debits(lines) - Total(Losses(lines))
  {
    hide Total, ApplyLines, Delta, Credits, Debits, Wrap;
    var m := ApplyLines(map[], lines);
    forall a <- m ensures m[a] == Wrap(Delta(lines, a)) {
      BalanceIsFold(map[], lines, a);
    }
    TotalOfSum(m, Losses(lines), ExactBalances(lines));
    TotalOfExactBalances(lines);
  }

  lemma NothingLost(lines: seq<EntryInput>)
    requires forall a :: Fits(Delta(lines, a))
    ensures Total(Losses(lines)) == 0
  {
    hide Total, ApplyLines, Delta, Fits;
    forall a <- Losses(lines) ensures Losses(lines)[a] == 0 {
      assert Fits(Delta(lines, a));
    }
    TotalOfZeros(Losses(lines));
  }

  /** Exactly what becomes of the total in every run, with no bound on what was posted and through either
      layer. A balance is exact if and only if its own credits minus debits fit int64. The total is all
      credits minus all debits less what the balances have lost by wrapping, so that it is 0 if and only if
      the losses make up for that difference; while every account fits, nothing is lost. */
  lemma ConservationIsExact(ps: seq<Post>)
    requires AllSupplied(ps)
    ensures var b := Run(ps); var lines := Lines(b.entries);
            && (forall a :: BalanceOf(b.balances, a) == Delta(lines, a) <==> Fits(Delta(lines, a)))
            && Total(b.balances) == Credits(lines) - Debits(lines) - Total(Losses(lines))
            && (Total(b.balances) == 0 <==> Total(Losses(lines)) == Credits(lines) - Debits(lines))
            && ((forall a :: Fits(Delta(lines, a))) ==> Total(b.balances) == Credits(lines) - Debits(lines))
  {
    var lines := Lines(Run(ps).entries);
    hide Run, ApplyLines, Credits, Debits, Total, Lines, Delta, Losses;
    BalancesReplayEntries(ps);
    BalancesPlusLosses(lines);
    forall a ensures BalanceOf(Run(ps).balances, a) == Delta(lines, a) <==> Fits(Delta(lines, a)) {
      CacheAgreement(ps, a);
    }
    if forall a :: Fits(Delta(lines, a)) {
      NothingLost(lines);
    }
  }

  /** Every accepted post has equal credits and debits, not only equal int64 sums of them. */
  predicate TrulyBalanced(ps: seq<Post>) {
    forall i | 0 <= i < |ps| :: Credits(Added(ps[i])) == Debits(Added(ps[i]))
  }

  lemma {:induction false} TrulyBalancedBook(ps: seq<Post>)
    requires AllSupplied(ps) && TrulyBalanced(ps)
    ensures Credits(Lines(Run(ps).entries)) == Debits(Lines(Run(ps).entries))
  {
    hide Step, Credits, Debits, Added;
    if ps == [] {
      assert Lines([]) == [];
      NoLineNoBalance();
    } else {
      var front, p := ps[..|ps| - 1], ps[|ps| - 1];
      TrulyBalancedBook(front);
      StepAppends(Run(front), p);
      SumsAppend(Lines(Run(front).entries), Added(p));
      assert p == ps[|ps| - 1];
    }
  }

  /** So a ledger of any age and turnover conserves exactly while its balances fit int64. */
  lemma FittingBalancesConserve(ps: seq<Post>)
    requires AllSupplied(ps) && TrulyBalanced(ps)
    requires forall a :: Fits(Delta(Lines(Run(ps).entries), a))
    ensures Total(Run(ps).balances) == 0
  {
    hide Run, Total, Lines, Delta, Credits, Debits, Losses;
    ConservationIsExact(ps);
    TrulyBalancedBook(ps);
  }

  /** In particular, posts through LedgerLogic keep the total at exactly 0 and every balance exact while
      neither all credits nor all debits together exceed the largest int64. */
  lemma ExactConservation(ps: seq<Post>, a: UUID)
    requires AllSupplied(ps) && forall i | 0 <= i < |ps| :: ps[i].viaLogic
    requires var lines := Lines(Run(ps).entries); Credits(lines) <= MAX_INT64 && Debits(lines) <= MAX_INT64
    ensures Total(Run(ps).balances) == 0
    ensures BalanceOf(Run(ps).balances, a) == Delta(Lines(Run(ps).entries), a)
  {
    hide Wrap, Run, ApplyLines, Credits, Debits, Total, Lines, Delta, BalanceOf, Losses;
    var lines := Lines(Run(ps).entries);
    LogicPostsArePositive(ps);
    StoredEntriesBalance(ps);
    DeltaWithinSums(lines, a);
    forall x ensures Fits(Delta(lines, x)) {
      DeltaWithinSums(lines, x);
    }
    ConservationIsExact(ps);
  }

  /** Once a balance has wrapped the total can be off: one accepted post whose credits and debits both
      reach 2^63 leaves a total of -2^64. */
  lemma WrappedBalancesLoseTotal(from: UUID, into: UUID, p: Post)
    requires from != into && p.Supplied() && p.viaLogic && p.input.description != ""
    requires var half: Int64 := 0x4000_0000_0000_0000;
             p.input.entries == [EntryInput(into, Credit, half), EntryInput(into, Credit, half),
                                 EntryInput(from, Debit, half), EntryInput(from, Debit, half)]
    ensures Step(EMPTY, p).1.Ok?
    ensures Total(Step(EMPTY, p).0.balances) == 0 - TWO_TO_64
  {
    var half: Int64 := 0x4000_0000_0000_0000;
    var e := p.input.entries;
    assert e[..3][..2] == e[..2] && e[..2][..1] == e[..1] && e[..1][..0] == [];
    assert e[..3] == [e[0], e[1], e[2]] && e[..2] == [e[0], e[1]] && e[..1] == [e[0]];
    assert Credits(e[..1]) == half && Credits(e[..2]) == 2 * half && Credits(e[..3]) == 2 * half;
    assert Debits(e[..1]) == 0 && Debits(e[..2]) == 0 && Debits(e[..3]) == half;
    var m1 := ApplyLines(map[], e[..1]);
    assert m1 == ApplyLine(ApplyLines(map[], e[..1][..0]), e[0]);
    assert m1 == map[into := half];
    var m2 := ApplyLines(map[], e[..2]);
    assert m2 == map[into := MIN_INT64];
    var m3 := ApplyLines(map[], e[..3]);
    assert m3 == map[into := MIN_INT64, from := 0 - half];
    var m := ApplyLines(map[], e);
    assert m == map[into := MIN_INT64, from := MIN_INT64];
    TotalWithout(m, into);
    TotalWithout(m - {into}, from);
    assert m - {into} - {from} == map[];
  }
}
