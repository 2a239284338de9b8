/** The in-memory household repository and the two logic types in front of it, updated in place. */
module HouseholdRepository {
  import opened Wrappers
  import opened Uuid
  import opened Households
  import Users
  import UserRepository

  /** items lists f(k) for every key k of the set exactly once, in the unspecified order of a Go map. */
  ghost predicate Enumerates<T(!new)>(items: seq<T>, keys: set<MemberKey>, f: map<MemberKey, T>) {
    exists order: seq<MemberKey> :: EnumeratesInOrder(items, keys, f, order)
  }

  ghost predicate EnumeratesInOrder<T(!new)>(items: seq<T>, keys: set<MemberKey>, f: map<MemberKey, T>,
                                             order: seq<MemberKey>) {
    && |order| == |items|
    && (forall i | 0 <= i < |order| :: order[i] in keys && order[i] in f && items[i] == f[order[i]])
    && (forall i, j | 0 <= i < j < |order| :: order[i] != order[j])
    && (forall k <- keys :: k in order)
  }

  /** How many listed memberships carry the ADMIN role. */
  function CountAdmins(members: seq<Membership>): nat {
    if members == [] then 0
    else CountAdmins(members[..|members| - 1]) + if members[|members| - 1].role == ADMIN then 1 else 0
  }

  function AdminKeys(order: seq<MemberKey>, f: map<MemberKey, Membership>): set<MemberKey> {
    set k | k in order && k in f && f[k].role == ADMIN
  }

  lemma AdminKeysAppend(order: seq<MemberKey>, f: map<MemberKey, Membership>, k: MemberKey)
    requires k !in order && k in f
    ensures |AdminKeys(order + [k], f)| == |AdminKeys(order, f)| + if f[k].role == ADMIN then 1 else 0
  {
    assert AdminKeys(order + [k], f) == AdminKeys(order, f) + if f[k].role == ADMIN then {k} else {};
  }

  lemma {:induction false} CountOfOrder(members: seq<Membership>, f: map<MemberKey, Membership>, order: seq<MemberKey>)
    requires |order| == |members| && forall i | 0 <= i < |order| :: order[i] in f && members[i] == f[order[i]]
    requires forall i, j | 0 <= i < j < |order| :: order[i] != order[j]
    ensures CountAdmins(members) == |AdminKeys(order, f)|
  {
    if members == [] {
      assert AdminKeys(order, f) == {};
    } else {
      hide AdminKeys;
      var n := |members| - 1;
      CountOfOrder(members[..n], f, order[..n]);
      assert order == order[..n] + [order[n]];
      AdminKeysAppend(order[..n], f, order[n]);
    }
  }

  /** The count is the true number of active admins. */
  lemma CountIsExact(s: Store, householdId: UUID, members: seq<Membership>)
    requires Enumerates(members, ActiveKeys(s, householdId), s.members)
    ensures CountAdmins(members) == |ActiveAdmins(s, householdId)|
  {
    var order :| EnumeratesInOrder(members, ActiveKeys(s, householdId), s.members, order);
    CountOfOrder(members, s.members, order);
    assert AdminKeys(order, s.members) == ActiveAdmins(s, householdId);
  }

  class FakeHouseholdRepository {
    var byID: map<UUID, Household>
    var members: map<MemberKey, Membership>
    var removed: set<MemberKey>

    ghost function State(): Store
      reads this
    {
      Store(byID, members, removed)
    }

    constructor ()
      ensures State() == EMPTY
    {
      byID, members, removed := map[], map[], {};
    }

    method Create(name: string, callerId: UUID, newId: UUID) returns (h: Household)
      modifies this
      ensures State() == Inserted(old(State()), name, callerId, newId)
      ensures h == byID[newId]
    {
      h := Household(newId, name, 1, callerId, callerId);
      byID := byID[h.id := h];
      var key := MemberKey(h.id, callerId);
      members := members[key := Membership(h.id, callerId, ADMIN, NIL)];
    }

    method FindMembership(householdId: UUID, userId: UUID) returns (r: Result<Membership, HouseholdError>)
      ensures r == Households.FindMembership(State(), householdId, userId)
    {
      var key := MemberKey(householdId, userId);
      if key !in members || key in removed {
        return Err(MemberNotFound);
      }
      r := Ok(members[key]);
    }

    method ListMembers(householdId: UUID) returns (result: seq<Membership>)
      ensures Enumerates(result, ActiveKeys(State(), householdId), members)
    {
      result := [];
      ghost var order: seq<MemberKey> := [];
      var rest := members.Keys;
      ghost var wanted := ActiveKeys(State(), householdId);
      while rest != {}
        invariant rest <= members.Keys
        invariant EnumeratesInOrder(result, wanted - rest, members, order)
        decreases |rest|
      {
        var key :| key in rest;
        if key.householdId == householdId && key !in removed {
          result := result + [members[key]];
          order := order + [key];
        }
        rest := rest - {key};
      }
      assert wanted - rest == wanted;
    }

    method ListForUser(userId: UUID) returns (result: seq<Household>)
      ensures Enumerates(result, KeysForUser(State(), userId),
                         map k | k in members && k.householdId in byID :: byID[k.householdId])
    {
      result := [];
      ghost var order: seq<MemberKey> := [];
      var rest := members.Keys;
      ghost var wanted := KeysForUser(State(), userId);
      ghost var f := map k | k in members && k.householdId in byID :: byID[k.householdId];
      while rest != {}
        invariant rest <= members.Keys
        invariant EnumeratesInOrder(result, wanted - rest, f, order)
        decreases |rest|
      {
        var key :| key in rest;
        if members[key].userId == userId && key !in removed {
          if key.householdId in byID {
            result := result + [byID[key.householdId]];
            order := order + [key];
          }
        }
        rest := rest - {key};
      }
      assert wanted - rest == wanted;
    }

    method AddMember(householdId: UUID, userId: UUID, role: Role, callerId: UUID)
      returns (r: Result<Membership, HouseholdError>)
      modifies this
      ensures (State(), r) == WithMember(old(State()), householdId, userId, role, callerId)
    {
      var key := MemberKey(householdId, userId);
      if key in members && key !in removed {
        return Err(MemberExists);
      }
      var m := Membership(householdId, userId, role, callerId);
      members := members[key := m];
      removed := removed - {key};
      r := Ok(m);
    }

    method RemoveMember(householdId: UUID, userId: UUID)
      modifies this
      ensures State() == WithoutMember(old(State()), householdId, userId)
    {
      removed := removed + {MemberKey(householdId, userId)};
    }

    method UpdateName(id: UUID, name: string, expectedVersion: int, callerId: UUID)
      returns (r: Result<Household, HouseholdError>)
      modifies this
      ensures (State(), r) == Renamed(old(State()), id, name, expectedVersion, callerId)
    {
      if id !in byID {
        return Err(NotFound);
      }
      var h := byID[id];
      if h.version != expectedVersion {
        return Err(VersionConflict);
      }
      h := h.(name := name, version := h.version + 1, updatedBy := callerId);
      byID := byID[id := h];
      r := Ok(h);
    }

    method Deactivate(id: UUID)
      modifies this
      ensures State() == old(State()).(byID := old(byID) - {id})
    {
      byID := byID - {id};
    }
  }

  /** The error side of a call's answer. */
  function ErrorOf<T>(r: Result<T, HouseholdError>): Option<HouseholdError> {
    match r
    case Ok(_) => None
    case Err(e) => Some(e)
  }

  class HouseholdLogic {
    const repo: FakeHouseholdRepository

    constructor (repo: FakeHouseholdRepository)
      ensures this.repo == repo
    {
      this.repo := repo;
    }

    method Create(name: string, callerId: UUID, newId: UUID) returns (r: Result<Household, HouseholdError>)
      modifies repo
      ensures (repo.State(), ErrorOf(r)) == Step(old(repo.State()), Op.Create(name, callerId, newId))
      ensures r.Ok? ==> newId in repo.byID && r.value == repo.byID[newId]
    {
      if |name| < 2 || |name| > 100 {
        return Err(InvalidName);
      }
      var created := repo.Create(name, callerId, newId);
      r := Ok(created);
    }

    method AddMember(householdId: UUID, userId: UUID, role: Role, callerId: UUID)
      returns (r: Result<Membership, HouseholdError>)
      modifies repo
      ensures (repo.State(), ErrorOf(r)) == Step(old(repo.State()), Op.AddMember(householdId, userId, role, callerId))
      ensures r.Ok? ==> Households.FindMembership(repo.State(), householdId, userId) == r
    {
      var caller := repo.FindMembership(householdId, callerId);
      if caller.Err? || caller.value.role != ADMIN {
        return Err(NotAdmin);
      }
      r := repo.AddMember(householdId, userId, role, callerId);
    }

    method RemoveMember(householdId: UUID, userId: UUID, callerId: UUID) returns (e: Option<HouseholdError>)
      modifies repo
      ensures (repo.State(), e) == Step(old(repo.State()), Op.RemoveMember(householdId, userId, callerId))
    {
      hide Enumerates, ActiveKeys, ActiveAdmins;
      var caller := repo.FindMembership(householdId, callerId);
      if caller.Err? || caller.value.role != ADMIN {
        return Some(NotAdmin);
      }
      var members := repo.ListMembers(householdId);
      var adminCount := 0;
      for i := 0 to |members|
        invariant adminCount == CountAdmins(members[..i])
      {
        assert members[..i + 1][..i] == members[..i];
        if members[i].role == ADMIN {
          adminCount := adminCount + 1;
        }
      }
      assert members[..|members|] == members;
      CountIsExact(repo.State(), householdId, members);
      var target := repo.FindMembership(householdId, userId);
      if target.Err? {
        return None; // already removed
      }
      if target.value.role == ADMIN && adminCount <= 1 {
        return Some(LastAdmin);
      }
      repo.RemoveMember(householdId, userId);
      e := None;
    }

    method UpdateName(id: UUID, name: string, expectedVersion: int, callerId: UUID)
      returns (r: Result<Household, HouseholdError>)
      modifies repo
      ensures (repo.State(), ErrorOf(r)) == Step(old(repo.State()), Rename(id, name, expectedVersion, callerId))
      ensures r.Ok? ==> id in repo.byID && r.value == repo.byID[id]
    {
      if |name| < 2 || |name| > 100 {
        return Err(InvalidName);
      }
      r := repo.UpdateName(id, name, expectedVersion, callerId);
    }

    method Deactivate(id: UUID, callerId: UUID)
      modifies repo
      ensures (repo.State(), None) == Step(old(repo.State()), Op.Deactivate(id, callerId))
    {
      repo.Deactivate(id);
    }
  }

  datatype CreatedMember = CreatedMember(user: Users.User, membership: Membership)

  /** CreateHouseholdUser as the fake transactor runs it: the user step registers through UserLogic, and a user
      once registered stays when the membership step fails. */
  method CreateHouseholdUser(repo: FakeHouseholdRepository, users: UserRepository.UserLogic, householdId: UUID,
                             email: string, displayName: string, password: string, callerId: UUID, newId: UUID)
    returns (r: Result<CreatedMember, HouseholdError>)
    modifies repo, users.repo
    ensures var (t, created) :=
              Users.Registered(old(users.repo.State()), email, displayName, password, callerId, newId);
            && users.repo.State() == t
            && (repo.State(), ErrorOf(r)) ==
               Step(old(repo.State()), CreateUser(householdId, newId, created.Ok?, callerId))
    ensures old(users.repo.Valid()) && newId !in old(users.repo.byID) ==> users.repo.Valid()
    ensures r.Ok? ==>
              && Users.FindByEmail(users.repo.State(), email) == Ok(r.value.user) && r.value.user.id == newId
              && Households.FindMembership(repo.State(), householdId, newId) == Ok(r.value.membership)
              && r.value.membership == Membership(householdId, newId, MEMBER, callerId)
  {
    var created := users.Register(email, displayName, password, callerId, newId);
    if created.Err? {
      return Err(UserStep);
    }
    var added := repo.AddMember(householdId, created.value.id, MEMBER, callerId);
    if added.Err? {
      return Err(added.error);
    }
    r := Ok(CreatedMember(created.value, added.value));
  }
}
