/** Posting through RunAtomic: a rejected statement anywhere undoes the whole post. */
module SqlAtomicity {
  import opened Ledger
  import opened SqlLedger
  import opened Transactor

  const STATEMENT_FAILED := 6

  /** One statement as the callback issues it: its error is returned at once. */
  function Issue(s: Statement): Prog<Tables> {
    Branch((t: Tables) => Rejected(t, s), Prog.Raise(STATEMENT_FAILED),
           Write((t: Tables) => if Rejected(t, s) then t else Execute(t, s)))
  }

  function IssueAll(ss: seq<Statement>): Prog<Tables> {
    if ss == [] then Skip else Sequence(IssueAll(ss[..|ss| - 1]), Issue(ss[|ss| - 1]))
  }

  lemma {:induction false} IssuedTrace(ss: seq<Statement>, t: Tables)
    ensures var (w, o) := Trace(IssueAll(ss), t);
            && Replay(w, t) == ExecuteAll(t, ss).0
            && (o == Done <==> ExecuteAll(t, ss).1)
  {
    hide Rejected, Execute;
    if ss != [] {
      var front, s := ss[..|ss| - 1], ss[|ss| - 1];
      IssuedTrace(front, t);
      var w := Trace(IssueAll(front), t).0;
      var u := Replay(w, t);
      OneTrace(s, u);
      ReplayAppend(w, Trace(Issue(s), u).0, t);
      assert w + [] == w;
    }
  }

  lemma OneTrace(s: Statement, u: Tables)
    ensures var (w, o) := Trace(Issue(s), u);
            && (o == Done <==> !Rejected(u, s))
            && Replay(w, u) == (if Rejected(u, s) then u else Execute(u, s))
  {
    hide Rejected, Execute;
    var f := (t: Tables) => if Rejected(t, s) then t else Execute(t, s);
    assert [f][..0] == [];
  }

  /** Whatever the database answers, the committed tables afterwards are either those before the call or
      those with every row and every balance change of the post. */
  lemma PostIsAtomic(p: Post, s: Session<Tables>, pool: nat -> Supply)
    requires p.Supplied() && s.working.None?
    ensures var (t, o) := Eval(Atomic(IssueAll(PostStatements(p))), s, pool);
            var (u, ok) := ExecuteAll(s.committed, PostStatements(p));
            && t.working.None?
            && (o == Done <==> ok && pool(s.begun) == Supply(true, true))
            && t.committed == (if o == Done then u else s.committed)
  {
    hide Trace, Replay, ExecuteAll, Eval, IssueAll, PostStatements;
    IssuedTrace(PostStatements(p), s.committed);
    OutermostIsAtomic(IssueAll(PostStatements(p)), s, pool);
  }
}
