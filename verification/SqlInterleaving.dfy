/** Concurrent posts: every interleaving of their statements reaches the balances of any serial order. */
module SqlInterleaving {
  import opened MachineInt
  import opened Uuid
  import opened Ledger
  import opened SqlLedger
  import opened SqlStreams

  // ---------- Statements of posts ----------

  function Streams(ps: seq<Post>): (ss: seq<seq<Statement>>)
    requires AllSupplied(ps)
    ensures |ss| == |ps|
  {
    seq(|ps|, i requires 0 <= i < |ps| => PostStatements(ps[i]))
  }

  /** All lines of all posts. */
  function PostedLines(ps: seq<Post>): seq<EntryInput> {
    if ps == [] then [] else PostedLines(ps[..|ps| - 1]) + ps[|ps| - 1].input.entries
  }

  /** What the lines credit to, debit from, and how often they name account a. */
  function LineWeight(l: EntryInput, m: Measure, a: UUID): int {
    if l.accountId != a then 0
    else match m
      case Raise => if l.entryType.Credit? then l.amount else 0
      case Lower => if l.entryType.Debit? then l.amount else 0
      case Uses => 1
      case Credited => if l.entryType.Credit? then l.amount else 0
      case Debited => if l.entryType.Debit? then l.amount else 0
  }

  function LineSum(lines: seq<EntryInput>, m: Measure, a: UUID): int {
    if lines == [] then 0 else LineSum(lines[..|lines| - 1], m, a) + LineWeight(lines[|lines| - 1], m, a)
  }

  /** What LedgerLogic and the table constraints let through: debits and credits of positive amounts
      on accounts that exist and are not deleted. */
  predicate Postable(t: Tables, l: EntryInput) {
    !l.entryType.Other? && l.amount > 0 && Active(t, l.accountId)
  }

  lemma LineStatementWeight(txId: UUID, l: EntryInput, id: UUID, m: Measure, a: UUID)
    requires !l.entryType.Other? && l.amount > 0
    ensures SumOf(LineStatements(txId, l, id), m, a) == LineWeight(l, m, a)
  {
    var ss := LineStatements(txId, l, id);
    assert SumOf(ss[..1], m, a) == Weight(ss[0], m, a) by {
      assert ss[..1][..0] == [];
    }
  }

  /** Debits and credits of positive amounts. */
  predicate MovesMoney(l: EntryInput) {
    !l.entryType.Other? && l.amount > 0
  }

  lemma {:induction false} LinesStatementsSum(txId: UUID, lines: seq<EntryInput>, ids: seq<UUID>, m: Measure, a: UUID)
    requires |ids| == |lines| && forall l <- lines :: MovesMoney(l)
    ensures SumOf(LinesStatements(txId, lines, ids), m, a) == LineSum(lines, m, a)
  {
    if lines != [] {
      hide SumOf, LineWeight, LineStatements;
      var n := |lines| - 1;
      assert lines[n] in lines;
      LinesStatementsSum(txId, lines[..n], ids[..n], m, a);
      LineStatementWeight(txId, lines[n], ids[n], m, a);
      SumOfAppend(LinesStatements(txId, lines[..n], ids[..n]), LineStatements(txId, lines[n], ids[n]), m, a);
    }
  }

  lemma PostStatementsSum(p: Post, m: Measure, a: UUID)
    requires p.Supplied() && forall l <- p.input.entries :: MovesMoney(l)
    ensures SumOf(PostStatements(p), m, a) == LineSum(p.input.entries, m, a)
  {
    hide LineSum, LinesStatements, Posted;
    var head := [InsertTransaction(Posted(p).transaction)];
    LinesStatementsSum(p.txId, p.input.entries, p.entryIds, m, a);
    SumOfAppend(head, LinesStatements(p.txId, p.input.entries, p.entryIds), m, a);
    assert head[..0] == [];
  }

  lemma {:induction false} LineSumAppend(xs: seq<EntryInput>, ys: seq<EntryInput>, m: Measure, a: UUID)
    ensures LineSum(xs + ys, m, a) == LineSum(xs, m, a) + LineSum(ys, m, a)
  {
    if ys == [] {
      assert xs + ys == xs;
    } else {
      assert (xs + ys)[..|xs + ys| - 1] == xs + ys[..|ys| - 1];
      LineSumAppend(xs, ys[..|ys| - 1], m, a);
    }
  }

  lemma PostableMoves(t: Tables, p: Post)
    requires forall l <- p.input.entries :: Postable(t, l)
    ensures forall l <- p.input.entries :: MovesMoney(l)
  {
  }

  lemma {:induction false} SerialSum(t: Tables, ps: seq<Post>, m: Measure, a: UUID)
    requires AllSupplied(ps) && forall p <- ps, l <- p.input.entries :: Postable(t, l)
    ensures SumOf(Serial(Streams(ps)), m, a) == LineSum(PostedLines(ps), m, a)
  {
    if ps != [] {
      hide SumOf, LineSum, PostStatements, Postable, MovesMoney;
      var front, p := ps[..|ps| - 1], ps[|ps| - 1];
      SerialSum(t, front, m, a);
      assert Streams(ps)[..|front|] == Streams(front) && Streams(ps)[|front|] == PostStatements(p);
      SumOfAppend(Serial(Streams(front)), PostStatements(p), m, a);
      PostableMoves(t, p);
      PostStatementsSum(p, m, a);
      LineSumAppend(PostedLines(front), p.input.entries, m, a);
    } else {
      assert Streams(ps) == [];
    }
  }

  lemma {:induction false} LinesWellFormed(t: Tables, txId: UUID, lines: seq<EntryInput>, ids: seq<UUID>)
    requires |ids| == |lines| && forall l <- lines :: Postable(t, l)
    ensures forall s <- LinesStatements(txId, lines, ids) :: WellFormed(t, s)
  {
    if lines != [] {
      var n := |lines| - 1;
      assert lines[n] in lines;
      LinesWellFormed(t, txId, lines[..n], ids[..n]);
      forall s <- LineStatements(txId, lines[n], ids[n]) ensures WellFormed(t, s) {
      }
      hide LineStatements, WellFormed;
    }
  }

  lemma {:induction false} SerialWellFormed(t: Tables, ps: seq<Post>)
    requires AllSupplied(ps) && forall p <- ps, l <- p.input.entries :: Postable(t, l)
    ensures forall s <- Serial(Streams(ps)) :: WellFormed(t, s)
  {
    if ps != [] {
      hide WellFormed, Postable;
      var front, p := ps[..|ps| - 1], ps[|ps| - 1];
      SerialWellFormed(t, front);
      assert Streams(ps)[..|front|] == Streams(front) && Streams(ps)[|front|] == PostStatements(p);
      LinesWellFormed(t, p.txId, p.input.entries, p.entryIds);
      HeaderWellFormed(t, p);
    } else {
      assert Streams(ps) == [];
    }
  }

  lemma HeaderWellFormed(t: Tables, p: Post)
    requires p.Supplied()
    ensures WellFormed(t, InsertTransaction(Posted(p).transaction))
  {
  }

  /** The totals of all posts together stay within the columns of account a. */
  predicate TotalsFit(t: Tables, ps: seq<Post>, a: UUID) {
    Active(t, a) ==>
      && t.accounts[a].balance + LineSum(PostedLines(ps), Raise, a) <= MAX_INT64
      && t.accounts[a].balance - LineSum(PostedLines(ps), Lower, a) >= MIN_INT64
      && t.accounts[a].version + LineSum(PostedLines(ps), Uses, a) <= MAX_INT32
  }

  lemma {:induction false} LineSumIsDelta(lines: seq<EntryInput>, a: UUID)
    ensures LineSum(lines, Raise, a) - LineSum(lines, Lower, a) == Delta(lines, a)
  {
    if lines != [] {
      LineSumIsDelta(lines[..|lines| - 1], a);
    }
  }

  lemma TraceSum(t: Tables, ps: seq<Post>, trace: seq<Statement>, m: Measure, a: UUID)
    requires AllSupplied(ps) && forall p <- ps, l <- p.input.entries :: Postable(t, l)
    requires Interleaves(Streams(ps), trace)
    ensures SumOf(trace, m, a) == LineSum(PostedLines(ps), m, a)
  {
    hide SumOf, LineSum, Postable, Interleaves;
    InterleavingPermutes(Streams(ps), trace);
    SumOfPermutation(trace, Serial(Streams(ps)), m, a);
    SerialSum(t, ps, m, a);
  }

  /** The totals of the posts within the columns are enough room; the order inside a post may need less. */
  lemma TotalsFitIsRoom(t: Tables, ps: seq<Post>, a: UUID)
    requires AllSupplied(ps) && forall p <- ps, l <- p.input.entries :: Postable(t, l)
    requires TotalsFit(t, ps, a)
    ensures PeakRoom(t, Streams(ps), a)
  {
    hide Serial, SumOf, LineSum, Peaks, Postable;
    PeaksWithinSums(Streams(ps), a);
    SerialSum(t, ps, Raise, a);
    SerialSum(t, ps, Lower, a);
    SerialSum(t, ps, Uses, a);
  }

  /** However the statements of any number of posts interleave, they all succeed, every account ends at
      its old balance plus its net credits with one version per entry naming it, and the same rows exist. */
  lemma AnyInterleaving(t: Tables, ps: seq<Post>, trace: seq<Statement>, a: UUID)
    requires AllSupplied(ps) && forall p <- ps, l <- p.input.entries :: Postable(t, l)
    requires forall b :: PeakRoom(t, Streams(ps), b)
    requires Interleaves(Streams(ps), trace)
    ensures var (u, ok) := ExecuteAll(t, trace);
            && ok
            && u.accounts.Keys == t.accounts.Keys
            && (Active(t, a) ==>
                  && Active(u, a)
                  && u.accounts[a].balance == t.accounts[a].balance + Delta(PostedLines(ps), a)
                  && u.accounts[a].version == t.accounts[a].version + LineSum(PostedLines(ps), Uses, a))
  {
    hide ExecuteAll, Interleaves, WellFormed, SumOf, LineSum, Postable, Serial, Delta, PeakRoom, Admitted;
    SerialAdmitted(t, ps);
    RoomyInterleaving(t, Streams(ps), trace);
    ExecutionRows(t, trace);
    if Active(t, a) {
      ExecutionEffect(t, trace, a);
      TraceSum(t, ps, trace, Raise, a);
      TraceSum(t, ps, trace, Lower, a);
      TraceSum(t, ps, trace, Uses, a);
      LineSumIsDelta(PostedLines(ps), a);
    }
  }

  lemma SerialAdmitted(t: Tables, ps: seq<Post>)
    requires AllSupplied(ps) && forall p <- ps, l <- p.input.entries :: Postable(t, l)
    ensures forall s <- Serial(Streams(ps)) :: Admitted(t, s)
  {
    hide Serial, Postable;
    SerialWellFormed(t, ps);
  }

  /** Two interleavings of the same posts, of which one may be serial, cannot be told apart afterwards
      except by the order of the rows. */
  lemma InterleavingsAgree(t: Tables, ps: seq<Post>, trace: seq<Statement>, other: seq<Statement>)
    requires AllSupplied(ps) && forall p <- ps, l <- p.input.entries :: Postable(t, l)
    requires forall b :: PeakRoom(t, Streams(ps), b)
    requires Interleaves(Streams(ps), trace) && Interleaves(Streams(ps), other)
    ensures ExecuteAll(t, trace).1 && ExecuteAll(t, other).1
    ensures SameOutcome(ExecuteAll(t, trace).0, ExecuteAll(t, other).0)
  {
    hide ExecuteAll, Interleaves, Postable, Serial, Delta, LineSum, PeakRoom, SameOutcome;
    AnyInterleaving(t, ps, trace, NIL);
    AnyInterleaving(t, ps, other, NIL);
    InterleavingPermutes(Streams(ps), trace);
    InterleavingPermutes(Streams(ps), other);
    OrderIsInvisible(t, trace, other);
  }

  lemma PostRemoved(ps: seq<Post>, k: nat, d: Direction, a: UUID)
    requires AllSupplied(ps) && k < |ps|
    ensures var rest := ps[..k] + ps[k + 1..];
            && AllSupplied(rest)
            && Peaks(Streams(ps), d, a) == Peaks(Streams(rest), d, a) + Peak(PostStatements(ps[k]), d, a)
            && multiset(Serial(Streams(ps))) == multiset(Serial(Streams(rest))) + multiset(PostStatements(ps[k]))
  {
    hide Serial, Peaks, Peak, PostStatements;
    StreamRemoved(Streams(ps), k, d, a);
    assert Streams(ps)[..k] + Streams(ps)[k + 1..] == Streams(ps[..k] + ps[k + 1..]);
  }

  /** Posts in another order send the same statements and need the same room. */
  lemma {:induction false} PermutedPosts(ps: seq<Post>, qs: seq<Post>, d: Direction, a: UUID)
    requires AllSupplied(ps) && AllSupplied(qs) && multiset(ps) == multiset(qs)
    ensures multiset(Serial(Streams(ps))) == multiset(Serial(Streams(qs)))
    ensures Peaks(Streams(ps), d, a) == Peaks(Streams(qs), d, a)
  {
    if ps == [] {
      assert |multiset(qs)| == 0;
    } else {
      hide Serial, Peaks, Peak, PostStatements, Streams;
      var n := |ps| - 1;
      var k := LastElsewhere(ps, qs);
      PostRemoved(ps, n, d, a);
      PostRemoved(qs, k, d, a);
      assert ps[..n] + ps[n + 1..] == ps[..n];
      PermutedPosts(ps[..n], qs[..k] + qs[k + 1..], d, a);
    }
  }

  lemma PermutedRoom(t: Tables, ps: seq<Post>, qs: seq<Post>, a: UUID)
    requires AllSupplied(ps) && AllSupplied(qs) && multiset(ps) == multiset(qs)
    requires PeakRoom(t, Streams(ps), a)
    ensures PeakRoom(t, Streams(qs), a)
  {
    hide Serial, Peaks, SumOf, Streams;
    PermutedPosts(ps, qs, Up, a);
    PermutedPosts(ps, qs, Down, a);
    SumOfPermutation(Serial(Streams(ps)), Serial(Streams(qs)), Uses, a);
  }

  lemma PermutationSupplied(ps: seq<Post>, qs: seq<Post>)
    requires AllSupplied(ps) && multiset(qs) == multiset(ps)
    ensures AllSupplied(qs) && forall q <- qs :: q in ps
  {
    forall i | 0 <= i < |qs| ensures qs[i] in ps {
      assert qs[i] in multiset(ps);
    }
  }

  /** Any interleaving of the posts ends as any serial order of them does. */
  lemma AnySerialOrder(t: Tables, ps: seq<Post>, trace: seq<Statement>, qs: seq<Post>)
    requires AllSupplied(ps) && forall p <- ps, l <- p.input.entries :: Postable(t, l)
    requires forall b :: PeakRoom(t, Streams(ps), b)
    requires Interleaves(Streams(ps), trace) && multiset(qs) == multiset(ps)
    ensures AllSupplied(qs) && ExecuteAll(t, trace).1 && ExecuteAll(t, Serial(Streams(qs))).1
    ensures SameOutcome(ExecuteAll(t, trace).0, ExecuteAll(t, Serial(Streams(qs))).0)
  {
    hide ExecuteAll, Interleaves, Postable, Serial, Delta, LineSum, PeakRoom, Streams, SameOutcome;
    PermutationSupplied(ps, qs);
    var serial := Serial(Streams(qs));
    forall b ensures PeakRoom(t, Streams(qs), b) {
      PermutedRoom(t, ps, qs, b);
    }
    SerialIsInterleaving(Streams(qs));
    AnyInterleaving(t, ps, trace, NIL);
    AnyInterleaving(t, qs, serial, NIL);
    InterleavingPermutes(Streams(ps), trace);
    PermutedPosts(ps, qs, Up, NIL);
    OrderIsInvisible(t, trace, serial);
  }

  lemma {:induction false} LineSumsPair(lines: seq<EntryInput>, a: UUID)
    ensures LineSum(lines, Credited, a) == LineSum(lines, Raise, a)
    ensures LineSum(lines, Debited, a) == LineSum(lines, Lower, a)
  {
    if lines != [] {
      LineSumsPair(lines[..|lines| - 1], a);
    }
  }

  lemma {:induction false} RecordedDelta(ss: seq<Statement>, a: UUID)
    requires forall s <- ss :: s.InsertEntry? ==> !s.entry.line.entryType.Other? && s.entry.line.amount > 0
    ensures Delta(Lines(EntryRows(ss)), a) == SumOf(ss, Credited, a) - SumOf(ss, Debited, a)
  {
    if ss == [] {
      assert Lines([]) == [];
    } else {
      var front, s := ss[..|ss| - 1], ss[|ss| - 1];
      assert s in ss;
      RecordedDelta(front, a);
      if s.InsertEntry? {
        var ls := Lines(EntryRows(ss));
        assert ls[..|ls| - 1] == Lines(EntryRows(front)) && ls[|ls| - 1] == s.entry.line;
      } else {
        assert EntryRows(ss) == EntryRows(front);
      }
    }
  }

  lemma {:induction false} DeltaAppend(xs: seq<EntryInput>, ys: seq<EntryInput>, a: UUID)
    ensures Delta(xs + ys, a) == Delta(xs, a) + Delta(ys, a)
  {
    if ys == [] {
      assert xs + ys == xs;
    } else {
      assert (xs + ys)[..|xs + ys| - 1] == xs + ys[..|ys| - 1];
      DeltaAppend(xs, ys[..|ys| - 1], a);
    }
  }

  lemma TraceIsPostable(t: Tables, ps: seq<Post>, trace: seq<Statement>)
    requires AllSupplied(ps) && forall p <- ps, l <- p.input.entries :: Postable(t, l)
    requires Interleaves(Streams(ps), trace)
    ensures forall s <- trace :: WellFormed(t, s)
  {
    hide WellFormed, Interleaves, Postable, Serial;
    InterleavingPermutes(Streams(ps), trace);
    SerialWellFormed(t, ps);
    forall s <- trace ensures WellFormed(t, s) {
      assert s in multiset(trace);
      assert s in Serial(Streams(ps));
    }
  }

  lemma WellFormedEntries(t: Tables, ss: seq<Statement>)
    requires forall s <- ss :: WellFormed(t, s)
    ensures forall s <- ss :: s.InsertEntry? ==> !s.entry.line.entryType.Other? && s.entry.line.amount > 0
  {
  }

  /** The balance column stays the sum of the stored entries: no interleaving changes the difference between
      an account's balance and its recorded credits minus debits, which is 0 for an account opened at 0. */
  lemma BalanceColumnFollowsEntries(t: Tables, ps: seq<Post>, trace: seq<Statement>, a: UUID)
    requires AllSupplied(ps) && forall p <- ps, l <- p.input.entries :: Postable(t, l)
    requires forall b :: PeakRoom(t, Streams(ps), b)
    requires Interleaves(Streams(ps), trace) && Active(t, a)
    ensures var u := ExecuteAll(t, trace).0;
            && Active(u, a)
            && u.accounts[a].balance - Delta(Lines(u.entries), a)
            == t.accounts[a].balance - Delta(Lines(t.entries), a)
  {
    hide ExecuteAll, Interleaves, Postable, PeakRoom, Serial, Delta, LineSum, EntryRows, SumOf, WellFormed;
    var u := ExecuteAll(t, trace).0;
    var lines := PostedLines(ps);
    AnyInterleaving(t, ps, trace, a);
    ExecutionRows(t, trace);
    TraceIsPostable(t, ps, trace);
    WellFormedEntries(t, trace);
    RecordedDelta(trace, a);
    TraceSum(t, ps, trace, Credited, a);
    TraceSum(t, ps, trace, Debited, a);
    LineSumsPair(lines, a);
    LineSumIsDelta(lines, a);
    assert Lines(u.entries) == Lines(t.entries) + Lines(EntryRows(trace));
    DeltaAppend(Lines(t.entries), Lines(EntryRows(trace)), a);
  }

  // ---------- One post on its own ----------

  lemma {:induction false} RowsAppend(xs: seq<Statement>, ys: seq<Statement>)
    ensures TransactionRows(xs + ys) == TransactionRows(xs) + TransactionRows(ys)
    ensures EntryRows(xs + ys) == EntryRows(xs) + EntryRows(ys)
  {
    if ys == [] {
      assert xs + ys == xs;
    } else {
      assert (xs + ys)[..|xs + ys| - 1] == xs + ys[..|ys| - 1];
      RowsAppend(xs, ys[..|ys| - 1]);
    }
  }

  lemma LineRows(txId: UUID, line: EntryInput, id: UUID)
    ensures TransactionRows(LineStatements(txId, line, id)) == []
    ensures EntryRows(LineStatements(txId, line, id)) == [Entry(id, txId, line)]
  {
    var two := LineStatements(txId, line, id);
    assert two[..1][..0] == [];
    assert TransactionRows(two[..1]) == [] && EntryRows(two[..1]) == [Entry(id, txId, line)];
  }

  /** The rows that a post asks for. */
  lemma {:induction false} LinesRows(txId: UUID, lines: seq<EntryInput>, ids: seq<UUID>)
    requires |ids| == |lines|
    ensures TransactionRows(LinesStatements(txId, lines, ids)) == []
    ensures EntryRows(LinesStatements(txId, lines, ids)) == NewEntries(txId, lines, ids)
  {
    if lines != [] {
      hide TransactionRows, EntryRows, LineStatements;
      var n := |lines| - 1;
      LinesRows(txId, lines[..n], ids[..n]);
      LineRows(txId, lines[n], ids[n]);
      RowsAppend(LinesStatements(txId, lines[..n], ids[..n]), LineStatements(txId, lines[n], ids[n]));
      NewEntriesAppend(txId, lines, ids);
      hide NewEntries;
    }
  }

  lemma NewEntriesAppend(txId: UUID, lines: seq<EntryInput>, ids: seq<UUID>)
    requires |ids| == |lines| > 0
    ensures var n := |lines| - 1;
            NewEntries(txId, lines, ids) == NewEntries(txId, lines[..n], ids[..n]) + [Entry(ids[n], txId, lines[n])]
  {
  }

  lemma PostRows(p: Post)
    requires p.Supplied()
    ensures TransactionRows(PostStatements(p)) == [Posted(p).transaction]
    ensures EntryRows(PostStatements(p)) == Posted(p).entries
  {
    hide TransactionRows, EntryRows, LinesStatements;
    var head := [InsertTransaction(Posted(p).transaction)];
    LinesRows(p.txId, p.input.entries, p.entryIds);
    RowsAppend(head, LinesStatements(p.txId, p.input.entries, p.entryIds));
    HeadRows(Posted(p).transaction);
  }

  lemma HeadRows(row: Transaction)
    ensures TransactionRows([InsertTransaction(row)]) == [row] && EntryRows([InsertTransaction(row)]) == []
  {
    assert [InsertTransaction(row)][..0] == [];
  }

  /** The lines that the table constraints admit: of known type, positive, on an existing account. */
  predicate Admissible(t: Tables, l: EntryInput) {
    MovesMoney(l) && l.accountId in t.accounts
  }

  lemma {:induction false} LinesAdmitted(t: Tables, txId: UUID, lines: seq<EntryInput>, ids: seq<UUID>)
    requires |ids| == |lines|
    ensures (forall s <- LinesStatements(txId, lines, ids) :: Admitted(t, s)) <==> forall l <- lines :: Admissible(t, l)
  {
    if lines != [] {
      var n := |lines| - 1;
      assert lines == lines[..n] + [lines[n]];
      LinesAdmitted(t, txId, lines[..n], ids[..n]);
      var front, two := LinesStatements(txId, lines[..n], ids[..n]), LineStatements(txId, lines[n], ids[n]);
      LineAdmitted(t, txId, lines[n], ids[n]);
      hide Admitted, Admissible;
      assert LinesStatements(txId, lines, ids) == front + two;
      assert two[0] in two && two[1] in two;
    }
  }

  lemma LineAdmitted(t: Tables, txId: UUID, l: EntryInput, id: UUID)
    ensures (forall s <- LineStatements(txId, l, id) :: Admitted(t, s)) <==> Admissible(t, l)
  {
    var two := LineStatements(txId, l, id);
    assert two[0] in two;
  }

  lemma PostAdmitted(t: Tables, p: Post)
    requires p.Supplied()
    ensures (forall s <- PostStatements(p) :: Admitted(t, s)) <==> forall l <- p.input.entries :: Admissible(t, l)
  {
    hide LinesStatements, Admissible, Posted;
    LinesAdmitted(t, p.txId, p.input.entries, p.entryIds);
    var head := InsertTransaction(Posted(p).transaction);
    var rest := LinesStatements(p.txId, p.input.entries, p.entryIds);
    assert Admitted(t, head);
    assert PostStatements(p) == [head] + rest;
  }

  /** Run alone, the statements of a post all succeed exactly if every line is admissible and every account has
      room for the highest and the lowest running total of the post and for its version. */
  lemma PostSucceedsExactly(t: Tables, p: Post)
    requires p.Supplied()
    requires forall a <- t.accounts :: t.accounts[a].version <= MAX_INT32
    ensures ExecuteAll(t, PostStatements(p)).1 <==>
            && (forall l <- p.input.entries :: Admissible(t, l))
            && forall a :: PeakRoom(t, [PostStatements(p)], a)
  {
    hide ExecuteAll, PostStatements, Interleaves, PeakRoom, Admitted, Admissible;
    var ss := PostStatements(p);
    SerialOfOne(ss);
    PostAdmitted(t, p);
    InterleavingHeadroomIsExact(t, [ss]);
    SerialIsInterleaving([ss]);
    forall trace: seq<Statement> | Interleaves([ss], trace) ensures trace == ss {
      OneStream(ss, trace);
    }
  }

  /** A post that succeeds adds its transaction row and its entries, moves each active account by its credits
      minus debits with one version per line naming it, and touches no other account. */
  lemma PostEffect(t: Tables, p: Post, a: UUID)
    requires p.Supplied() && ExecuteAll(t, PostStatements(p)).1
    ensures var u := ExecuteAll(t, PostStatements(p)).0;
            && u.transactions == t.transactions
                                 + [Transaction(p.txId, p.householdId, p.input.description, p.input.date, p.callerId)]
            && u.entries == t.entries + NewEntries(p.txId, p.input.entries, p.entryIds)
            && u.accounts.Keys == t.accounts.Keys
            && (Active(t, a) ==>
                  && Active(u, a)
                  && u.accounts[a].balance == t.accounts[a].balance + Delta(p.input.entries, a)
                  && u.accounts[a].version == t.accounts[a].version + LineSum(p.input.entries, Uses, a))
            && (a in t.accounts && !Active(t, a) ==> u.accounts[a] == t.accounts[a])
  {
    hide ExecuteAll, PostStatements, Delta, LineSum, SumOf, Admitted;
    var ss := PostStatements(p);
    PostRows(p);
    ExecutionRows(t, ss);
    ExecutedIsAdmitted(t, ss);
    PostAdmitted(t, p);
    if Active(t, a) {
      ExecutionEffect(t, ss, a);
      PostStatementsSum(p, Raise, a);
      PostStatementsSum(p, Lower, a);
      PostStatementsSum(p, Uses, a);
      LineSumIsDelta(p.input.entries, a);
    } else {
      InactiveUntouched(t, ss, a);
    }
  }
}
