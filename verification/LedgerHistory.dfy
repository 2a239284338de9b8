/** Transaction history: what the stored book says about every post ever accepted. */
module LedgerHistory {
  import opened MachineInt
  import opened Uuid
  import opened Ledger
  import opened Paging

  /** The entries of one transaction, in insertion order. */
  function EntriesOf(entries: seq<Entry>, txId: UUID): seq<Entry> {
    if entries == [] then []
    else
      var e := entries[|entries| - 1];
      EntriesOf(entries[..|entries| - 1], txId) + if e.transactionId == txId then [e] else []
  }

  /** uuid.Nil stands for no account filter. */
  predicate Matches(e: Entry, account: UUID) {
    account == NIL || e.line.accountId == account
  }

  predicate Touches(entries: seq<Entry>, txId: UUID, account: UUID) {
    exists e <- entries :: e.transactionId == txId && Matches(e, account)
  }

  predicate Selected(t: Transaction, entries: seq<Entry>, household: UUID, account: UUID) {
    t.householdId == household && Touches(entries, t.id, account)
  }

  /** The history before paging. */
  function Matching(transactions: seq<Transaction>, entries: seq<Entry>, household: UUID, account: UUID): seq<Record> {
    if transactions == [] then []
    else
      var t := transactions[|transactions| - 1];
      Matching(transactions[..|transactions| - 1], entries, household, account) +
      if Selected(t, entries, household, account) then [Record(t, EntriesOf(entries, t.id))] else []
  }

  // ---------- Receipts ----------

  /** The receipts a history query should show. */
  function Shown(rs: seq<Record>, household: UUID, account: UUID): seq<Record> {
    if rs == [] then []
    else
      var r := rs[|rs| - 1];
      Shown(rs[..|rs| - 1], household, account) +
      if r.transaction.householdId == household && exists e <- r.entries :: Matches(e, account) then [r] else []
  }

  function Transactions(rs: seq<Record>): seq<Transaction> {
    if rs == [] then [] else Transactions(rs[..|rs| - 1]) + [rs[|rs| - 1].transaction]
  }

  function AllEntries(rs: seq<Record>): seq<Entry> {
    if rs == [] then [] else AllEntries(rs[..|rs| - 1]) + rs[|rs| - 1].entries
  }

  /** Every entry carries the id of its own transaction, and no two transactions share an id. */
  predicate Tagged(rs: seq<Record>) {
    && (forall r <- rs, e <- r.entries :: e.transactionId == r.transaction.id)
    && (forall i, j | 0 <= i < j < |rs| :: rs[i].transaction.id != rs[j].transaction.id)
  }

  /** The receipt of a post, if it is accepted. */
  function Receipt(p: Post): seq<Record>
    requires p.Supplied()
  {
    if Verdict(p).None? then [Posted(p)] else []
  }

  lemma StepOfRun(ps: seq<Post>)
    requires AllSupplied(ps) && ps != []
    ensures var front, p := ps[..|ps| - 1], ps[|ps| - 1];
            && Receipts(ps) == Receipts(front) + Receipt(p)
            && Run(ps).transactions == Run(front).transactions + Transactions(Receipt(p))
            && Run(ps).entries == Run(front).entries + AllEntries(Receipt(p))
  {
    var p := ps[|ps| - 1];
    hide Run, Verdict;
    RunUnfolds(ps);
    assert [Posted(p)][..0] == [];
  }

  lemma {:induction false} LaidEndToEnd(rs: seq<Record>, qs: seq<Record>)
    requires |qs| <= 1
    ensures Transactions(rs + qs) == Transactions(rs) + Transactions(qs)
    ensures AllEntries(rs + qs) == AllEntries(rs) + AllEntries(qs)
  {
    if qs == [] {
      assert rs + qs == rs;
    } else {
      assert (rs + qs)[..|rs|] == rs && qs[..0] == [];
    }
  }

  /** The book is its receipts laid end to end. */
  lemma {:induction false} BookIsReceipts(ps: seq<Post>)
    requires AllSupplied(ps)
    ensures Run(ps).transactions == Transactions(Receipts(ps))
    ensures Run(ps).entries == AllEntries(Receipts(ps))
  {
    if ps != [] {
      var front, p := ps[..|ps| - 1], ps[|ps| - 1];
      BookIsReceipts(front);
      StepOfRun(ps);
      hide *;
      LaidEndToEnd(Receipts(front), Receipt(p));
    }
  }

  /** Each receipt is the answer to one of the posts. */
  lemma {:induction false} ReceiptsComeFromPosts(ps: seq<Post>)
    requires AllSupplied(ps)
    ensures forall r <- Receipts(ps) :: exists p <- ps :: Verdict(p).None? && r == Posted(p)
  {
    if ps != [] {
      var front, p := ps[..|ps| - 1], ps[|ps| - 1];
      ReceiptsComeFromPosts(front);
      StepOfRun(ps);
      hide Receipts, Verdict, Posted;
      assert ps == front + [p];
    }
  }

  lemma TaggedAppend(rs: seq<Record>, r: Record)
    requires Tagged(rs) && (forall e <- r.entries :: e.transactionId == r.transaction.id)
    requires forall q <- rs :: q.transaction.id != r.transaction.id
    ensures Tagged(rs + [r])
  {
  }

  lemma FreshIdsOfFront(ps: seq<Post>)
    requires ps != [] && FreshIds(ps)
    ensures FreshIds(ps[..|ps| - 1])
    ensures forall q <- ps[..|ps| - 1] :: q.txId != ps[|ps| - 1].txId
  {
  }

  lemma {:induction false} ReceiptsAreTagged(ps: seq<Post>)
    requires AllSupplied(ps) && FreshIds(ps)
    ensures Tagged(Receipts(ps))
  {
    if ps != [] {
      var front, p := ps[..|ps| - 1], ps[|ps| - 1];
      FreshIdsOfFront(ps);
      ReceiptsAreTagged(front);
      ReceiptsComeFromPosts(front);
      StepOfRun(ps);
      hide Receipts, Verdict, Tagged, FreshIds;
      if Verdict(p).None? {
        TaggedAppend(Receipts(front), Posted(p));
      } else {
        assert Receipts(ps) == Receipts(front);
      }
    }
  }

  lemma {:induction false} EntriesOfAppend(xs: seq<Entry>, ys: seq<Entry>, id: UUID)
    ensures EntriesOf(xs + ys, id) == EntriesOf(xs, id) + EntriesOf(ys, id)
  {
    if ys == [] {
      assert xs + ys == xs;
    } else {
      assert (xs + ys)[..|xs + ys| - 1] == xs + ys[..|ys| - 1];
      EntriesOfAppend(xs, ys[..|ys| - 1], id);
    }
  }

  lemma {:induction false} EntriesOfUniform(es: seq<Entry>, id: UUID)
    ensures (forall e <- es :: e.transactionId == id) ==> EntriesOf(es, id) == es
    ensures (forall e <- es :: e.transactionId != id) ==> EntriesOf(es, id) == []
  {
    if es != [] {
      EntriesOfUniform(es[..|es| - 1], id);
    }
  }

  lemma {:induction false} LookupAbsent(rs: seq<Record>, id: UUID)
    requires forall r <- rs, e <- r.entries :: e.transactionId == r.transaction.id
    requires forall r <- rs :: r.transaction.id != id
    ensures EntriesOf(AllEntries(rs), id) == []
  {
    if rs != [] {
      var front, last := rs[..|rs| - 1], rs[|rs| - 1];
      assert last in rs && forall r <- front :: r in rs;
      hide EntriesOf;
      LookupAbsent(front, id);
      EntriesOfAppend(AllEntries(front), last.entries, id);
      EntriesOfUniform(last.entries, id);
    } else {
      assert AllEntries(rs) == [];
    }
  }

  /** Looking up the id of a record among all entries finds that record's entries. */
  lemma {:induction false} LookupReceipt(rs: seq<Record>, k: nat)
    requires Tagged(rs) && k < |rs|
    ensures EntriesOf(AllEntries(rs), rs[k].transaction.id) == rs[k].entries
  {
    var front, last, id := rs[..|rs| - 1], rs[|rs| - 1], rs[k].transaction.id;
    assert last in rs && forall r <- front :: r in rs;
    hide EntriesOf;
    EntriesOfAppend(AllEntries(front), last.entries, id);
    EntriesOfUniform(last.entries, id);
    if k == |front| {
      LookupAbsent(front, id);
    } else {
      LookupReceipt(front, k);
    }
  }

  lemma {:induction false} TouchesIsLookup(entries: seq<Entry>, id: UUID, account: UUID)
    ensures Touches(entries, id, account) <==> exists e <- EntriesOf(entries, id) :: Matches(e, account)
  {
    if entries != [] {
      var front, e := entries[..|entries| - 1], entries[|entries| - 1];
      TouchesIsLookup(front, id, account);
      assert entries == front + [e];
      assert e in entries;
      assert e.transactionId == id ==> e in EntriesOf(entries, id);
    }
  }

  lemma {:induction false} MatchingIsShown(rs: seq<Record>, all: seq<Record>, household: UUID, account: UUID)
    requires Tagged(all) && forall r <- rs :: r in all
    ensures Matching(Transactions(rs), AllEntries(all), household, account) == Shown(rs, household, account)
  {
    if rs != [] {
      var front, r := rs[..|rs| - 1], rs[|rs| - 1];
      MatchingIsShown(front, all, household, account);
      assert r in rs;
      var k :| 0 <= k < |all| && all[k] == r;
      LookupReceipt(all, k);
      TouchesIsLookup(AllEntries(all), r.transaction.id, account);
    }
  }

  /** After any run, the unpaged history of a household consists of exactly the receipts that match the
      filter: each once, in posting order, with the very entries its post returned. */
  lemma HistoryShowsReceipts(ps: seq<Post>, household: UUID, account: UUID)
    requires AllSupplied(ps) && FreshIds(ps)
    ensures Matching(Run(ps).transactions, Run(ps).entries, household, account)
         == Shown(Receipts(ps), household, account)
    ensures SlicePage(Matching(Run(ps).transactions, Run(ps).entries, household, account), 0, 0)
         == Rows(Shown(Receipts(ps), household, account))
  {
    hide Run, Matching, Shown, Receipts;
    BookIsReceipts(ps);
    ReceiptsAreTagged(ps);
    MatchingIsShown(Receipts(ps), Receipts(ps), household, account);
  }

  // ---------- From the posts themselves ----------

  /** The acceptable posts to the household with a line that the filter admits, in posting order. */
  function Visible(ps: seq<Post>, household: UUID, account: UUID): seq<Post> {
    if ps == [] then []
    else
      var p := ps[|ps| - 1];
      Visible(ps[..|ps| - 1], household, account) +
      if Acceptable(p) && p.householdId == household && Names(p, account) then [p] else []
  }

  predicate Names(p: Post, account: UUID) {
    exists l <- p.input.entries :: account == NIL || l.accountId == account
  }

  /** The record that says what the post said, under the ids handed out for it. */
  predicate Tells(r: Record, p: Post) {
    && r.transaction.id == p.txId
    && r.transaction.householdId == p.householdId
    && r.transaction.description == p.input.description
    && r.transaction.date == p.input.date
    && r.transaction.createdBy == p.callerId
    && |r.entries| == |p.input.entries| == |p.entryIds|
    && forall i | 0 <= i < |r.entries| ::
         && r.entries[i].id == p.entryIds[i]
         && r.entries[i].transactionId == p.txId
         && r.entries[i].line == p.input.entries[i]
  }

  lemma ReceiptTells(p: Post, household: UUID, account: UUID)
    requires p.Supplied()
    ensures Tells(Posted(p), p)
    ensures (exists e <- Posted(p).entries :: Matches(e, account)) <==> Names(p, account)
  {
    var es, lines := Posted(p).entries, p.input.entries;
    if Names(p, account) {
      var i :| 0 <= i < |lines| && (account == NIL || lines[i].accountId == account);
      assert es[i] in es && Matches(es[i], account);
    }
    if exists e <- es :: Matches(e, account) {
      var i :| 0 <= i < |es| && Matches(es[i], account);
      assert lines[i] in lines;
    }
  }

  lemma {:induction false} ShownTellsVisible(ps: seq<Post>, household: UUID, account: UUID)
    requires AllSupplied(ps)
    ensures var rs, vs := Shown(Receipts(ps), household, account), Visible(ps, household, account);
            |rs| == |vs| && forall i | 0 <= i < |rs| :: Tells(rs[i], vs[i])
  {
    if ps != [] {
      var front, p := ps[..|ps| - 1], ps[|ps| - 1];
      ShownTellsVisible(front, household, account);
      StepOfRun(ps);
      VerdictIsExact(p);
      ReceiptTells(p, household, account);
      hide Receipts, Verdict, Acceptable, Names, Tells;
      assert (Receipts(front) + [Posted(p)])[..|Receipts(front)|] == Receipts(front);
    }
  }

  /** After any run the unpaged history tells exactly the acceptable posts to the household that the filter
      admits: one record each, in posting order, with what that post said. */
  lemma HistoryTellsPosts(ps: seq<Post>, household: UUID, account: UUID)
    requires AllSupplied(ps) && FreshIds(ps)
    ensures var page := SlicePage(Matching(Run(ps).transactions, Run(ps).entries, household, account), 0, 0);
            var vs := Visible(ps, household, account);
            && page.Rows?
            && |page.rows| == |vs|
            && forall i | 0 <= i < |vs| :: Tells(page.rows[i], vs[i])
  {
    hide Run, Matching, Shown, Receipts, Visible, Tells;
    HistoryShowsReceipts(ps, household, account);
    ShownTellsVisible(ps, household, account);
  }

  /** Every record in the history has equal int64 debits and credits, and equal debits and credits exactly
      when they differ by less than 2^64; posted through the logic layer, it also has an entry. */
  lemma ReceiptsBalance(ps: seq<Post>, r: Record)
    requires AllSupplied(ps) && r in Receipts(ps)
    ensures Balanced(Lines(r.entries))
    ensures var ls := Lines(r.entries);
            Credits(ls) == Debits(ls) <==> -TWO_TO_64 < Credits(ls) - Debits(ls) < TWO_TO_64
    ensures (forall p <- ps :: p.viaLogic) ==> r.entries != []
  {
    ReceiptsComeFromPosts(ps);
    var p :| p in ps && Verdict(p).None? && r == Posted(p);
    assert Lines(r.entries) == p.input.entries;
    hide Balanced;
    BalancedIsExact(p.input.entries);
  }

  /** Without an account filter exactly the household's receipts that have an entry are shown. */
  lemma {:induction false} UnfilteredShowsHousehold(rs: seq<Record>, household: UUID)
    ensures forall r <- rs ::
              r in Shown(rs, household, NIL) <==> r.transaction.householdId == household && r.entries != []
  {
    if rs != [] {
      var front, last := rs[..|rs| - 1], rs[|rs| - 1];
      assert rs == front + [last];
      UnfilteredShowsHousehold(front, household);
      ShownAreNonEmpty(front, household, NIL);
      assert last.entries != [] ==> Matches(last.entries[0], NIL) && last.entries[0] in last.entries;
    }
  }

  lemma {:induction false} ShownAreNonEmpty(rs: seq<Record>, household: UUID, account: UUID)
    ensures forall r <- Shown(rs, household, account) ::
              r in rs && r.transaction.householdId == household && r.entries != []
  {
    if rs != [] {
      ShownAreNonEmpty(rs[..|rs| - 1], household, account);
    }
  }
}
