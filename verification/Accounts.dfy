/** The in-memory account store: a primary map, a name index that must agree with it, and versions. */
module Accounts {
  import opened Wrappers
  import opened MachineInt
  import opened Uuid
  import opened GoText

  datatype Account = Account(id: UUID, householdId: UUID, name: string, accountType: string, currency: string,
                             balance: Int64, version: int, createdBy: UUID, updatedBy: UUID)

  datatype CreateInput = CreateInput(name: string, accountType: string, currency: string)

  datatype Store = Store(byID: map<UUID, Account>, names: map<string, UUID>)

  const EMPTY := Store(map[], map[])

  datatype AccountError = NameTaken | NotFound | VersionConflict

  // ---------- The index key ----------

  function NameKey(householdId: UUID, name: string): string {
    Text(householdId) + ":" + ToLower(name)
  }

  function KeyOf(a: Account): string {
    NameKey(a.householdId, a.name)
  }

  /** Ids print at a fixed length, so a key determines the household and the name up to case. */
  lemma NameKeyInjective(h: UUID, n: string, g: UUID, m: string)
    ensures NameKey(h, n) == NameKey(g, m) <==> h == g && ToLower(n) == ToLower(m)
  {
    hide Text, ToLower;
    var p, q := NameKey(h, n), NameKey(g, m);
    assert p[..36] == Text(h) && p[37..] == ToLower(n);
    assert q[..36] == Text(g) && q[37..] == ToLower(m);
    TextInjective(h, g);
  }

  // ---------- Operations ----------

  function Created(s: Store, householdId: UUID, input: CreateInput, callerId: UUID, newId: UUID):
    (Store, Result<Account, AccountError>)
  {
    var nk := NameKey(householdId, input.name);
    if nk in s.names then (s, Err(NameTaken))
    else
      var a := Account(newId, householdId, input.name, input.accountType, input.currency, 0, 1, callerId, callerId);
      (Store(s.byID[newId := a], s.names[nk := newId]), Ok(a))
  }

  function Renamed(s: Store, id: UUID, name: string, expected: int, callerId: UUID):
    (Store, Result<Account, AccountError>)
  {
    if id !in s.byID then (s, Err(NotFound))
    else
      var a := s.byID[id];
      var newKey := NameKey(a.householdId, name);
      if a.version != expected then (s, Err(VersionConflict))
      else if newKey in s.names && s.names[newKey] != id then (s, Err(NameTaken))
      else
        var b := a.(name := name, version := a.version + 1, updatedBy := callerId);
        (Store(s.byID[id := b], (s.names - {KeyOf(a)})[newKey := id]), Ok(b))
  }

  function Rebalanced(s: Store, id: UUID, balance: Int64, expected: int, callerId: UUID):
    (Store, Result<Account, AccountError>)
  {
    if id !in s.byID then (s, Err(NotFound))
    else if s.byID[id].version != expected then (s, Err(VersionConflict))
    else
      var b := s.byID[id].(balance := balance, version := expected + 1, updatedBy := callerId);
      (s.(byID := s.byID[id := b]), Ok(b))
  }

  function Deactivated(s: Store, id: UUID): Store {
    if id !in s.byID then s else Store(s.byID - {id}, s.names - {KeyOf(s.byID[id])})
  }

  datatype Op =
    | Creation(householdId: UUID, input: CreateInput, callerId: UUID, newId: UUID)
    | Renaming(id: UUID, name: string, expected: int, callerId: UUID)
    | Rebalancing(id: UUID, balance: Int64, expected: int, callerId: UUID)
    | Deactivation(id: UUID)

  /** One repository call; the flag says whether it returned without an error. */
  function Step(s: Store, op: Op): (Store, bool) {
    match op
    case Creation(h, input, caller, id) => var (t, r) := Created(s, h, input, caller, id); (t, r.Ok?)
    case Renaming(id, name, v, caller) => var (t, r) := Renamed(s, id, name, v, caller); (t, r.Ok?)
    case Rebalancing(id, balance, v, caller) => var (t, r) := Rebalanced(s, id, balance, v, caller); (t, r.Ok?)
    case Deactivation(id) => (Deactivated(s, id), true)
  }

  function Run(ops: seq<Op>): Store {
    if ops == [] then EMPTY else Step(Run(ops[..|ops| - 1]), ops[|ops| - 1]).0
  }

  /** uuid.New never returns an id twice. */
  predicate FreshIds(ops: seq<Op>) {
    forall i, j | 0 <= i < j < |ops| && ops[i].Creation? && ops[j].Creation? :: ops[i].newId != ops[j].newId
  }

  // ---------- The index agrees with the primary map ----------

  predicate Indexed(s: Store) {
    && (forall id <- s.byID :: s.byID[id].id == id && KeyOf(s.byID[id]) in s.names && s.names[KeyOf(s.byID[id])] == id)
    && (forall k <- s.names :: s.names[k] in s.byID && KeyOf(s.byID[s.names[k]]) == k)
  }

  lemma CreationKeepsIndexed(s: Store, h: UUID, input: CreateInput, caller: UUID, id: UUID)
    requires Indexed(s) && id !in s.byID
    ensures Indexed(Created(s, h, input, caller, id).0)
  {
    hide NameKey;
  }

  lemma RenamingKeepsIndexed(s: Store, id: UUID, name: string, expected: int, caller: UUID)
    requires Indexed(s)
    ensures Indexed(Renamed(s, id, name, expected, caller).0)
  {
    hide NameKey;
  }

  lemma RebalancingKeepsIndexed(s: Store, id: UUID, balance: Int64, expected: int, caller: UUID)
    requires Indexed(s)
    ensures Indexed(Rebalanced(s, id, balance, expected, caller).0)
  {
    hide NameKey;
  }

  lemma DeactivationKeepsIndexed(s: Store, id: UUID)
    requires Indexed(s)
    ensures Indexed(Deactivated(s, id))
  {
    hide NameKey;
  }

  lemma StepKeepsIndexed(s: Store, op: Op)
    requires Indexed(s) && (op.Creation? ==> op.newId !in s.byID)
    ensures Indexed(Step(s, op).0)
  {
    hide Indexed, Created, Renamed, Rebalanced, Deactivated;
    match op
    case Creation(h, input, caller, id) => CreationKeepsIndexed(s, h, input, caller, id);
    case Renaming(id, name, expected, caller) => RenamingKeepsIndexed(s, id, name, expected, caller);
    case Rebalancing(id, balance, expected, caller) => RebalancingKeepsIndexed(s, id, balance, expected, caller);
    case Deactivation(id) => DeactivationKeepsIndexed(s, id);
  }

  lemma {:induction false} LiveIdsWereCreated(ops: seq<Op>, id: UUID)
    requires id in Run(ops).byID
    ensures exists i | 0 <= i < |ops| :: ops[i].Creation? && ops[i].newId == id
  {
    var n := |ops| - 1;
    if id in Run(ops[..n]).byID {
      LiveIdsWereCreated(ops[..n], id);
      var i :| 0 <= i < n && ops[..n][i].Creation? && ops[..n][i].newId == id;
      assert ops[i].newId == id;
    } else {
      assert ops[n].Creation? && ops[n].newId == id;
    }
  }

  lemma {:induction false} RunIsIndexed(ops: seq<Op>)
    requires FreshIds(ops)
    ensures Indexed(Run(ops))
  {
    if ops != [] {
      hide Step, Indexed;
      var n := |ops| - 1;
      RunIsIndexed(ops[..n]);
      if ops[n].Creation? && ops[n].newId in Run(ops[..n]).byID {
        LiveIdsWereCreated(ops[..n], ops[n].newId);
        assert false;
      }
      StepKeepsIndexed(Run(ops[..n]), ops[n]);
    } else {
      assert Indexed(EMPTY);
    }
  }

  /** After any calls, looking a name up in the index finds exactly the account of that household whose
      name is the same ignoring case. */
  lemma NamesAreExact(ops: seq<Op>, h: UUID, name: string, id: UUID)
    requires FreshIds(ops)
    ensures var s := Run(ops);
            (NameKey(h, name) in s.names && s.names[NameKey(h, name)] == id) <==>
            (id in s.byID && s.byID[id].householdId == h && ToLower(s.byID[id].name) == ToLower(name))
  {
    RunIsIndexed(ops);
    hide Run, NameKey;
    if id in Run(ops).byID {
      var a := Run(ops).byID[id];
      NameKeyInjective(a.householdId, a.name, h, name);
    }
  }

  /** So no two active accounts of a household share a name ignoring case. */
  lemma NamesAreUnique(ops: seq<Op>, x: UUID, y: UUID)
    requires FreshIds(ops) && x in Run(ops).byID && y in Run(ops).byID
    requires Run(ops).byID[x].householdId == Run(ops).byID[y].householdId
    requires ToLower(Run(ops).byID[x].name) == ToLower(Run(ops).byID[y].name)
    ensures x == y
  {
    hide Run, NameKey, ToLower;
    var a := Run(ops).byID[x];
    NamesAreExact(ops, a.householdId, a.name, x);
    NamesAreExact(ops, a.householdId, a.name, y);
  }

  predicate NameInUse(s: Store, h: UUID, name: string) {
    exists id <- s.byID :: s.byID[id].householdId == h && ToLower(s.byID[id].name) == ToLower(name)
  }

  /** A creation is refused exactly when an active account of the household has the name ignoring case;
      a deactivated account's name is free again. */
  lemma CreationRefusedIffInUse(ops: seq<Op>, op: Op)
    requires FreshIds(ops) && op.Creation?
    ensures !Step(Run(ops), op).1 <==> NameInUse(Run(ops), op.householdId, op.input.name)
  {
    hide Run, NameKey, ToLower;
    var s, h, name := Run(ops), op.householdId, op.input.name;
    if NameKey(h, name) in s.names {
      NamesAreExact(ops, h, name, s.names[NameKey(h, name)]);
    }
    if NameInUse(s, h, name) {
      var id :| id in s.byID && s.byID[id].householdId == h && ToLower(s.byID[id].name) == ToLower(name);
      NamesAreExact(ops, h, name, id);
    }
  }

  // ---------- What each call answers and changes ----------

  /** What the accepted calls of a run say about an account: as created, with the latest accepted name and
      balance and one version per accepted update, unless deactivated. */
  function Current(ops: seq<Op>, id: UUID): Option<Account> {
    if ops == [] then None
    else
      var n := |ops| - 1;
      After(Current(ops[..n], id), ops[n], Step(Run(ops[..n]), ops[n]).1, id)
  }

  function After(c: Option<Account>, op: Op, accepted: bool, id: UUID): Option<Account> {
    if !accepted then c
    else match op
      case Creation(h, input, caller, i) =>
        if i == id then Some(Account(id, h, input.name, input.accountType, input.currency, 0, 1, caller, caller)) else c
      case Renaming(i, name, _, caller) =>
        if i == id && c.Some? then
          Some(c.value.(name := name, version := c.value.version + 1, updatedBy := caller))
        else c
      case Rebalancing(i, balance, _, caller) =>
        if i == id && c.Some? then
          Some(c.value.(balance := balance, version := c.value.version + 1, updatedBy := caller))
        else c
      case Deactivation(i) => if i == id then None else c
  }

  predicate Holds(s: Store, id: UUID, c: Option<Account>) {
    match c
    case None => id !in s.byID
    case Some(a) => id in s.byID && s.byID[id] == a
  }

  lemma StepKeepsCurrent(s: Store, op: Op, id: UUID, c: Option<Account>)
    requires Holds(s, id, c)
    ensures Holds(Step(s, op).0, id, After(c, op, Step(s, op).1, id))
  {
    hide NameKey;
  }

  /** After any calls the store holds exactly the accounts that the accepted calls describe. */
  lemma {:induction false} RunMatchesHistory(ops: seq<Op>, id: UUID)
    ensures Holds(Run(ops), id, Current(ops, id))
  {
    if ops != [] {
      hide Step, After, Holds;
      var n := |ops| - 1;
      RunMatchesHistory(ops[..n], id);
      StepKeepsCurrent(Run(ops[..n]), ops[n], id, Current(ops[..n], id));
    } else {
      assert id !in EMPTY.byID;
    }
  }

  /** Some other active account of the household has the name ignoring case. */
  ghost predicate TakenByOther(ops: seq<Op>, id: UUID, h: UUID, name: string) {
    exists other :: IsOtherBearer(ops, id, h, name, other)
  }

  predicate IsOtherBearer(ops: seq<Op>, id: UUID, h: UUID, name: string, other: UUID) {
    var c := Current(ops, other);
    other != id && c.Some? && c.value.householdId == h && ToLower(c.value.name) == ToLower(name)
  }

  lemma OtherBearerInIndex(ops: seq<Op>, id: UUID, h: UUID, name: string)
    requires FreshIds(ops)
    ensures var s := Run(ops);
            TakenByOther(ops, id, h, name) <==> NameKey(h, name) in s.names && s.names[NameKey(h, name)] != id
  {
    hide Run, NameKey, ToLower, Current, FreshIds;
    var s, nk := Run(ops), NameKey(h, name);
    if nk in s.names && s.names[nk] != id {
      NamesAreExact(ops, h, name, s.names[nk]);
      RunMatchesHistory(ops, s.names[nk]);
      assert IsOtherBearer(ops, id, h, name, s.names[nk]);
    }
    forall other | IsOtherBearer(ops, id, h, name, other) ensures nk in s.names && s.names[nk] != id {
      RunMatchesHistory(ops, other);
      NamesAreExact(ops, h, name, other);
    }
  }

  /** A renaming is accepted exactly for an active account at the expected version whose new name no other
      active account of its household has; a change of case only is therefore accepted. */
  lemma RenamingAnswer(ops: seq<Op>, id: UUID, name: string, expected: int, caller: UUID)
    requires FreshIds(ops)
    ensures var (t, r) := Renamed(Run(ops), id, name, expected, caller);
            var c := Current(ops, id);
            var due := c.Some? && c.value.version == expected;
            && (r.Ok? <==> due && !TakenByOther(ops, id, c.value.householdId, name))
            && (r == Err(NotFound) <==> c.None?)
            && (r == Err(VersionConflict) <==> c.Some? && !due)
            && (r == Err(NameTaken) <==> due && TakenByOther(ops, id, c.value.householdId, name))
            && (r.Err? ==> t == Run(ops))
            && (r.Ok? ==> id in t.byID && r.value == t.byID[id])
  {
    hide Run, Current, NameKey, TakenByOther, FreshIds;
    RunMatchesHistory(ops, id);
    if Current(ops, id).Some? {
      OtherBearerInIndex(ops, id, Current(ops, id).value.householdId, name);
    }
  }

  /** A balance is overwritten exactly for an active account at the expected version. */
  lemma RebalancingAnswer(ops: seq<Op>, id: UUID, balance: Int64, expected: int, caller: UUID)
    ensures var (t, r) := Rebalanced(Run(ops), id, balance, expected, caller);
            var c := Current(ops, id);
            && (r.Ok? <==> c.Some? && c.value.version == expected)
            && (r == Err(NotFound) <==> c.None?)
            && (r == Err(VersionConflict) <==> c.Some? && c.value.version != expected)
            && (r.Err? ==> t == Run(ops))
            && (r.Ok? ==> id in t.byID && r.value == t.byID[id] && t.names == Run(ops).names)
  {
    hide Run, Current;
    RunMatchesHistory(ops, id);
  }

  /** A creation is accepted exactly if no active account of the household has the name ignoring case. */
  lemma CreationAnswer(ops: seq<Op>, h: UUID, input: CreateInput, caller: UUID, id: UUID)
    requires FreshIds(ops)
    ensures var (t, r) := Created(Run(ops), h, input, caller, id);
            && (r.Ok? <==> !NameInUse(Run(ops), h, input.name))
            && (r.Err? ==> r.error == NameTaken && t == Run(ops))
            && (r.Ok? ==> id in t.byID && r.value == t.byID[id])
  {
    hide Run, NameKey, ToLower, NameInUse;
    CreationRefusedIffInUse(ops, Creation(h, input, caller, id));
  }

  /** Deactivating never fails; that account is gone, all others and their names stay. */
  lemma DeactivationAnswer(ops: seq<Op>, id: UUID)
    ensures var (t, ok) := Step(Run(ops), Deactivation(id));
            && ok
            && (forall i :: i in t.byID <==> i in Run(ops).byID && i != id)
            && (forall i <- t.byID :: t.byID[i] == Run(ops).byID[i])
  {
    hide Run, NameKey;
  }

  // ---------- In place ----------

  class FakeAccountRepository {
    var byID: map<UUID, Account>
    var names: map<string, UUID>

    ghost function State(): Store
      reads this
    {
      Store(byID, names)
    }

    constructor ()
      ensures State() == EMPTY
    {
      byID, names := map[], map[];
    }

    method Create(householdId: UUID, input: CreateInput, callerId: UUID, newId: UUID)
      returns (r: Result<Account, AccountError>)
      modifies this
      ensures (State(), r) == Created(old(State()), householdId, input, callerId, newId)
    {
      var nk := NameKey(householdId, input.name);
      if nk in names {
        return Err(NameTaken);
      }
      var a := Account(newId, householdId, input.name, input.accountType, input.currency, 0, 1, callerId, callerId);
      byID := byID[a.id := a];
      names := names[nk := a.id];
      r := Ok(a);
    }

    method UpdateName(id: UUID, name: string, expectedVersion: int, callerId: UUID)
      returns (r: Result<Account, AccountError>)
      modifies this
      ensures (State(), r) == Renamed(old(State()), id, name, expectedVersion, callerId)
    {
      if id !in byID {
        return Err(NotFound);
      }
      var a := byID[id];
      if a.version != expectedVersion {
        return Err(VersionConflict);
      }
      var newKey := NameKey(a.householdId, name);
      if newKey in names && names[newKey] != id {
        return Err(NameTaken);
      }
      var oldKey := NameKey(a.householdId, a.name);
      names := names - {oldKey};
      a := a.(name := name, version := a.version + 1, updatedBy := callerId);
      byID := byID[id := a];
      names := names[newKey := id];
      r := Ok(a);
    }

    method UpdateBalance(id: UUID, balance: Int64, expectedVersion: int, callerId: UUID)
      returns (r: Result<Account, AccountError>)
      modifies this
      ensures (State(), r) == Rebalanced(old(State()), id, balance, expectedVersion, callerId)
    {
      if id !in byID {
        return Err(NotFound);
      }
      var a := byID[id];
      if a.version != expectedVersion {
        return Err(VersionConflict);
      }
      a := a.(balance := balance, version := a.version + 1, updatedBy := callerId);
      byID := byID[id := a];
      r := Ok(a);
    }

    method Deactivate(id: UUID)
      modifies this
      ensures State() == Deactivated(old(State()), id)
    {
      if id !in byID {
        return;
      }
      var a := byID[id];
      names := names - {NameKey(a.householdId, a.name)};
      byID := byID - {id};
    }
  }
}
