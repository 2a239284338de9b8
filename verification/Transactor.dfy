/** RunAtomic: begin, run, then commit or roll back, with nested calls joining the outer transaction. */
module Transactor {
  import opened Wrappers

  /** A callback: reads and writes of a database of type S, application errors raised and caught,
      panics, and calls of RunAtomic. */
  datatype Prog<!S> =
    | Skip
    | Write(f: S -> S)
    | Branch(test: S -> bool, yes: Prog<S>, no: Prog<S>)
    | Sequence(first: Prog<S>, second: Prog<S>)
    | Raise(error: int)
    | Catch(body: Prog<S>, handler: Prog<S>)
    | Panic(value: int)
    | Atomic(body: Prog<S>)

  /** How a call ends: Go's nil, an error, or an unrecovered panic. Failed is a begin or commit error. */
  datatype Outcome = Done | Raised(error: int) | Failed | Panicked(value: int)

  predicate IsError(o: Outcome) {
    o.Raised? || o.Failed?
  }

  /** What the pool answers to the successive outermost begin and commit requests. */
  datatype Supply = Supply(begins: bool, commits: bool)

  /** The committed database, the working copy of an open transaction, and how many were begun. */
  datatype Session<!S> = Session(committed: S, working: Option<S>, begun: nat) {
    /** DBTXFromContext: the open transaction if there is one, the pool otherwise. */
    function Visible(): S {
      if working.Some? then working.value else committed
    }

    function Stored(s: S): Session<S> {
      if working.Some? then this.(working := Some(s)) else this.(committed := s)
    }
  }

  // ---------- Meaning ----------

  /** The specification of running p in a session; pool says what the k-th begin and commit answer. */
  function Eval<S>(p: Prog<S>, s: Session<S>, pool: nat -> Supply): (Session<S>, Outcome)
    decreases p
  {
    match p
    case Skip => (s, Done)
    case Write(f) => (s.Stored(f(s.Visible())), Done)
    case Branch(test, yes, no) => if test(s.Visible()) then Eval(yes, s, pool) else Eval(no, s, pool)
    case Sequence(first, second) =>
      var (t, o) := Eval(first, s, pool);
      if o == Done then Eval(second, t, pool) else (t, o)
    case Raise(e) => (s, Raised(e))
    case Catch(body, handler) =>
      var (t, o) := Eval(body, s, pool);
      if IsError(o) then Eval(handler, t, pool) else (t, o)
    case Panic(v) => (s, Panicked(v))
    case Atomic(body) =>
      if s.working.Some? then Eval(body, s, pool)
      else if !pool(s.begun).begins then (s.(begun := s.begun + 1), Failed)
      else
        var (t, o) := Eval(body, Session(s.committed, Some(s.committed), s.begun + 1), pool);
        if o != Done then (Session(t.committed, None, t.begun), o)
        else if !pool(s.begun).commits then (Session(t.committed, None, t.begun), Failed)
        else (Session(t.Visible(), None, t.begun), Done)
  }

  /** The connection state that the transactor and the repositories share, changed in place. */
  class PostgresTransactor<!S> {
    var committed: S
    var working: Option<S>
    var begun: nat
    const pool: nat -> Supply

    constructor (initial: S, pool: nat -> Supply)
      ensures State() == Session(initial, None, 0) && this.pool == pool
    {
      committed, working, begun := initial, None, 0;
      this.pool := pool;
    }

    ghost function State(): Session<S>
      reads this
    {
      Session(committed, working, begun)
    }

    /** A callback runs statement by statement on whatever DBTXFromContext yields. */
    method Execute(p: Prog<S>) returns (o: Outcome)
      modifies this
      ensures (State(), o) == Eval(p, old(State()), pool)
      decreases p, 0
    {
      match p
      case Skip =>
        o := Done;
      case Write(f) =>
        if working.Some? {
          working := Some(f(working.value));
        } else {
          committed := f(committed);
        }
        o := Done;
      case Branch(test, yes, no) =>
        if test(if working.Some? then working.value else committed) {
          o := Execute(yes);
        } else {
          o := Execute(no);
        }
      case Sequence(first, second) =>
        o := Execute(first);
        if o == Done {
          o := Execute(second);
        }
      case Raise(e) =>
        o := Raised(e);
      case Catch(body, handler) =>
        o := Execute(body);
        if IsError(o) {
          o := Execute(handler);
        }
      case Panic(v) =>
        o := Panicked(v);
      case Atomic(body) =>
        o := RunAtomic(body);
    }

    method RunAtomic(fn: Prog<S>) returns (o: Outcome)
      modifies this
      ensures (State(), o) == Eval(Atomic(fn), old(State()), pool)
      decreases fn, 1
    {
      if working.Some? {
        o := Execute(fn);
        return;
      }
      var answer := pool(begun);
      begun := begun + 1;
      if !answer.begins {
        return Failed;
      }
      working := Some(committed);
      StaysOpen(fn, State(), pool);
      o := Execute(fn);
      if o != Done {
        working := None; // roll back, on an error or before re-raising a panic
        return;
      }
      if !answer.commits {
        working := None;
        return Failed;
      }
      committed, working := working.value, None;
    }
  }

  /** Inside a transaction nothing is committed and nothing is begun. */
  lemma {:induction false} StaysOpen<S>(p: Prog<S>, s: Session<S>, pool: nat -> Supply)
    requires s.working.Some?
    ensures var t := Eval(p, s, pool).0;
            t.working.Some? && t.committed == s.committed && t.begun == s.begun
    decreases p
  {
    match p
    case Branch(_, yes, no) =>
      StaysOpen(yes, s, pool);
      StaysOpen(no, s, pool);
    case Sequence(first, second) =>
      StaysOpen(first, s, pool);
      StaysOpen(second, Eval(first, s, pool).0, pool);
    case Catch(body, handler) =>
      StaysOpen(body, s, pool);
      StaysOpen(handler, Eval(body, s, pool).0, pool);
    case Atomic(body) =>
      StaysOpen(body, s, pool);
    case _ =>
  }

  // ---------- An independent account of the writes ----------

  /** The writes p performs from database value s, in program order, with how it ends.
      RunAtomic plays no part in it. */
  function Trace<S>(p: Prog<S>, s: S): (seq<S -> S>, Outcome)
    decreases p
  {
    match p
    case Skip => ([], Done)
    case Write(f) => ([f], Done)
    case Branch(test, yes, no) => if test(s) then Trace(yes, s) else Trace(no, s)
    case Sequence(first, second) =>
      var (w, o) := Trace(first, s);
      if o == Done then (w + Trace(second, Replay(w, s)).0, Trace(second, Replay(w, s)).1) else (w, o)
    case Raise(e) => ([], Raised(e))
    case Catch(body, handler) =>
      var (w, o) := Trace(body, s);
      if IsError(o) then (w + Trace(handler, Replay(w, s)).0, Trace(handler, Replay(w, s)).1) else (w, o)
    case Panic(v) => ([], Panicked(v))
    case Atomic(body) => Trace(body, s)
  }

  /** Applies writes in order. */
  function Replay<S>(writes: seq<S -> S>, s: S): S {
    if writes == [] then s else writes[|writes| - 1](Replay(writes[..|writes| - 1], s))
  }

  lemma {:induction false} ReplayAppend<S>(u: seq<S -> S>, v: seq<S -> S>, s: S)
    ensures Replay(u + v, s) == Replay(v, Replay(u, s))
  {
    if v == [] {
      assert u + v == u;
    } else {
      assert (u + v)[..|u + v| - 1] == u + v[..|v| - 1];
      ReplayAppend(u, v[..|v| - 1], s);
    }
  }

  /** Inside a transaction, running p applies exactly its writes to the working copy. */
  lemma {:induction false} WorkingFollowsTrace<S>(p: Prog<S>, s: Session<S>, pool: nat -> Supply)
    requires s.working.Some?
    ensures var (w, o) := Trace(p, s.working.value);
            Eval(p, s, pool) == (s.(working := Some(Replay(w, s.working.value))), o)
    decreases p
  {
    var v := s.working.value;
    match p
    case Write(f) =>
      assert [f][..0] == [];
    case Branch(_, yes, no) =>
      WorkingFollowsTrace(yes, s, pool);
      WorkingFollowsTrace(no, s, pool);
    case Sequence(first, second) =>
      WorkingFollowsTrace(first, s, pool);
      var (w, o) := Trace(first, v);
      if o == Done {
        WorkingFollowsTrace(second, s.(working := Some(Replay(w, v))), pool);
        ReplayAppend(w, Trace(second, Replay(w, v)).0, v);
      }
    case Catch(body, handler) =>
      WorkingFollowsTrace(body, s, pool);
      var (w, o) := Trace(body, v);
      if IsError(o) {
        WorkingFollowsTrace(handler, s.(working := Some(Replay(w, v))), pool);
        ReplayAppend(w, Trace(handler, Replay(w, v)).0, v);
      }
    case Atomic(body) =>
      WorkingFollowsTrace(body, s, pool);
    case _ =>
  }

  /** No RunAtomic anywhere in p. */
  predicate Plain<S>(p: Prog<S>) {
    match p
    case Branch(_, yes, no) => Plain(yes) && Plain(no)
    case Sequence(first, second) => Plain(first) && Plain(second)
    case Catch(body, handler) => Plain(body) && Plain(handler)
    case Atomic(_) => false
    case _ => true
  }

  /** Outside any transaction, running p applies exactly its writes to the database itself, at once: those
      before an error or a panic stay. */
  lemma {:induction false} PoolFollowsTrace<S>(p: Prog<S>, s: Session<S>, pool: nat -> Supply)
    requires s.working.None? && Plain(p)
    ensures var (w, o) := Trace(p, s.committed);
            Eval(p, s, pool) == (s.(committed := Replay(w, s.committed)), o)
    decreases p
  {
    var v := s.committed;
    match p
    case Write(f) =>
      assert [f][..0] == [];
    case Branch(_, yes, no) =>
      PoolFollowsTrace(yes, s, pool);
      PoolFollowsTrace(no, s, pool);
    case Sequence(first, second) =>
      PoolFollowsTrace(first, s, pool);
      var (w, o) := Trace(first, v);
      if o == Done {
        PoolFollowsTrace(second, s.(committed := Replay(w, v)), pool);
        ReplayAppend(w, Trace(second, Replay(w, v)).0, v);
      }
    case Catch(body, handler) =>
      PoolFollowsTrace(body, s, pool);
      var (w, o) := Trace(body, v);
      if IsError(o) {
        PoolFollowsTrace(handler, s.(committed := Replay(w, v)), pool);
        ReplayAppend(w, Trace(handler, Replay(w, v)).0, v);
      }
    case _ =>
  }

  // ---------- Atomicity ----------

  /** The outermost RunAtomic either returns nil and has applied every write of its callback in program
      order, those of caught inner failures included, or leaves the committed database as it was. */
  lemma OutermostIsAtomic<S>(fn: Prog<S>, s: Session<S>, pool: nat -> Supply)
    requires s.working.None?
    ensures var (t, o) := Eval(Atomic(fn), s, pool);
            var (w, ended) := Trace(fn, s.committed);
            && t.working.None?
            && t.begun == s.begun + 1
            && t.committed == (if o == Done then Replay(w, s.committed) else s.committed)
            && (o == Done <==> pool(s.begun).begins && ended == Done && pool(s.begun).commits)
            && (pool(s.begun).begins && ended != Done ==> o == ended)
            && (!pool(s.begun).begins || (ended == Done && !pool(s.begun).commits) ==> o == Failed)
  {
    hide Trace, Replay;
    WorkingFollowsTrace(fn, Session(s.committed, Some(s.committed), s.begun + 1), pool);
  }

  // ---------- Erasing inner calls ----------

  /** p with every RunAtomic replaced by its callback. */
  function Flat<S>(p: Prog<S>): Prog<S> {
    match p
    case Branch(test, yes, no) => Branch(test, Flat(yes), Flat(no))
    case Sequence(first, second) => Sequence(Flat(first), Flat(second))
    case Catch(body, handler) => Catch(Flat(body), Flat(handler))
    case Atomic(body) => Flat(body)
    case _ => p
  }

  /** p with only the RunAtomic calls nested inside another one replaced. */
  function Unnest<S>(p: Prog<S>): Prog<S> {
    match p
    case Branch(test, yes, no) => Branch(test, Unnest(yes), Unnest(no))
    case Sequence(first, second) => Sequence(Unnest(first), Unnest(second))
    case Catch(body, handler) => Catch(Unnest(body), Unnest(handler))
    case Atomic(body) => Atomic(Flat(body))
    case _ => p
  }

  lemma {:induction false} FlatTrace<S>(p: Prog<S>, s: S)
    ensures Trace(Flat(p), s) == Trace(p, s)
    decreases p
  {
    match p
    case Branch(_, yes, no) =>
      FlatTrace(yes, s);
      FlatTrace(no, s);
    case Sequence(first, second) =>
      FlatTrace(first, s);
      FlatTrace(second, Replay(Trace(first, s).0, s));
    case Catch(body, handler) =>
      FlatTrace(body, s);
      FlatTrace(handler, Replay(Trace(body, s).0, s));
    case Atomic(body) =>
      FlatTrace(body, s);
    case _ =>
  }

  /** Nested RunAtomic calls are invisible: erasing them, anywhere in a program that may open any number
      of outermost transactions, changes neither the outcome nor the database. */
  lemma {:induction false} NestedCallsAreInvisible<S>(p: Prog<S>, s: Session<S>, pool: nat -> Supply)
    requires s.working.None?
    ensures Eval(Unnest(p), s, pool) == Eval(p, s, pool)
    ensures Eval(p, s, pool).0.working.None?
    decreases p
  {
    match p
    case Branch(_, yes, no) =>
      NestedCallsAreInvisible(yes, s, pool);
      NestedCallsAreInvisible(no, s, pool);
    case Sequence(first, second) =>
      NestedCallsAreInvisible(first, s, pool);
      NestedCallsAreInvisible(second, Eval(first, s, pool).0, pool);
    case Catch(body, handler) =>
      NestedCallsAreInvisible(body, s, pool);
      NestedCallsAreInvisible(handler, Eval(body, s, pool).0, pool);
    case Atomic(body) =>
      var inner := Session(s.committed, Some(s.committed), s.begun + 1);
      WorkingFollowsTrace(body, inner, pool);
      WorkingFollowsTrace(Flat(body), inner, pool);
      FlatTrace(body, s.committed);
    case _ =>
  }

  /** A nested failure that the outer callback catches is committed with the rest: there is no savepoint. */
  lemma CaughtInnerWritesAreKept<S>(body: Prog<S>, s: Session<S>, pool: nat -> Supply)
    requires s.working.None? && pool(s.begun) == Supply(true, true)
    requires Trace(body, s.committed).1.Raised?
    ensures Eval(Atomic(Catch(Atomic(body), Skip)), s, pool) ==
            (Session(Replay(Trace(body, s.committed).0, s.committed), None, s.begun + 1), Done)
  {
    var w := Trace(body, s.committed).0;
    assert w + [] == w;
    assert Trace(Catch(Atomic(body), Skip), s.committed) == (w, Done);
    OutermostIsAtomic(Catch(Atomic(body), Skip), s, pool);
  }

  /** A panic goes past every handler, rolls the transaction back and is raised again. */
  lemma PanicRollsBack<S>(body: Prog<S>, handler: Prog<S>, value: int, s: Session<S>, pool: nat -> Supply)
    requires s.working.None? && pool(s.begun).begins
    requires Trace(body, s.committed).1 == Panicked(value)
    ensures Eval(Atomic(Catch(body, handler)), s, pool) == (s.(begun := s.begun + 1), Panicked(value))
  {
    var w := Trace(body, s.committed).0;
    assert Trace(Catch(body, handler), s.committed) == (w, Panicked(value));
    hide Replay;
    OutermostIsAtomic(Catch(body, handler), s, pool);
  }

  /** After a transaction that failed, at its begin, in its callback or at its commit, a handler outside of it
      finds the database as it was. */
  lemma FailedTransactionIsCaught<S>(body: Prog<S>, handler: Prog<S>, s: Session<S>, pool: nat -> Supply)
    requires s.working.None?
    requires !pool(s.begun).begins || Trace(body, s.committed).1.Raised?
             || (Trace(body, s.committed).1 == Done && !pool(s.begun).commits)
    ensures Eval(Catch(Atomic(body), handler), s, pool) == Eval(handler, s.(begun := s.begun + 1), pool)
  {
    OutermostIsAtomic(body, s, pool);
    hide Trace, Replay;
    var t := Eval(Atomic(body), s, pool).0;
    assert t == s.(begun := s.begun + 1);
  }
}
