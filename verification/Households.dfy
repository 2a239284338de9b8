/** Households and their memberships on values: what each logic-layer call does, and why no household
    is ever left without an admin. */
module Households {
  import opened Wrappers
  import opened Uuid

  /** Any string may arrive as a role. */
  type Role = string
  const ADMIN: Role := "ADMIN"
  const MEMBER: Role := "MEMBER"

  datatype Household = Household(id: UUID, name: string, version: int, createdBy: UUID, updatedBy: UUID)

  datatype Membership = Membership(householdId: UUID, userId: UUID, role: Role, invitedBy: UUID)

  datatype MemberKey = MemberKey(householdId: UUID, userId: UUID)

  /** The repository's maps; removed holds the keys with a tombstone. */
  datatype Store = Store(byID: map<UUID, Household>, members: map<MemberKey, Membership>, removed: set<MemberKey>)

  const EMPTY := Store(map[], map[], {})

  datatype HouseholdError =
    | InvalidName | NotFound | VersionConflict | MemberNotFound | MemberExists | NotAdmin | LastAdmin | UserStep

  // ---------- Repository operations ----------

  function Inserted(s: Store, name: string, callerId: UUID, newId: UUID): Store {
    s.(byID := s.byID[newId := Household(newId, name, 1, callerId, callerId)],
       members := s.members[MemberKey(newId, callerId) := Membership(newId, callerId, ADMIN, NIL)])
  }

  predicate IsMember(s: Store, key: MemberKey) {
    key in s.members && key !in s.removed
  }

  function FindMembership(s: Store, householdId: UUID, userId: UUID): Result<Membership, HouseholdError> {
    var key := MemberKey(householdId, userId);
    if IsMember(s, key) then Ok(s.members[key]) else Err(MemberNotFound)
  }

  function WithMember(s: Store, householdId: UUID, userId: UUID, role: Role, callerId: UUID):
    (Store, Result<Membership, HouseholdError>)
  {
    var key := MemberKey(householdId, userId);
    if IsMember(s, key) then (s, Err(MemberExists))
    else
      var m := Membership(householdId, userId, role, callerId);
      (s.(members := s.members[key := m], removed := s.removed - {key}), Ok(m))
  }

  function WithoutMember(s: Store, householdId: UUID, userId: UUID): Store {
    s.(removed := s.removed + {MemberKey(householdId, userId)})
  }

  function Renamed(s: Store, id: UUID, name: string, expectedVersion: int, callerId: UUID):
    (Store, Result<Household, HouseholdError>)
  {
    if id !in s.byID then (s, Err(NotFound))
    else if s.byID[id].version != expectedVersion then (s, Err(VersionConflict))
    else
      var h := s.byID[id].(name := name, version := expectedVersion + 1, updatedBy := callerId);
      (s.(byID := s.byID[id := h]), Ok(h))
  }

  // ---------- Admins ----------

  function ActiveKeys(s: Store, householdId: UUID): set<MemberKey> {
    set k | k in s.members && k.householdId == householdId && k !in s.removed
  }

  function ActiveAdmins(s: Store, householdId: UUID): set<MemberKey> {
    set k | k in ActiveKeys(s, householdId) && s.members[k].role == ADMIN
  }

  predicate IsAdmin(s: Store, householdId: UUID, userId: UUID) {
    var m := FindMembership(s, householdId, userId);
    m.Ok? && m.value.role == ADMIN
  }

  // ---------- Logic-layer calls ----------

  datatype Op =
    | Create(name: string, callerId: UUID, newId: UUID)
    | AddMember(householdId: UUID, userId: UUID, role: Role, callerId: UUID)
    | RemoveMember(householdId: UUID, userId: UUID, callerId: UUID)
    | CreateUser(householdId: UUID, userId: UUID, userStepOk: bool, callerId: UUID)
    | Rename(id: UUID, newName: string, expectedVersion: int, callerId: UUID)
    | Deactivate(id: UUID, callerId: UUID)

  predicate ValidName(name: string) {
    2 <= |name| <= 100
  }

  /** Each call as one step; the option holds the error, if any. */
  function Step(s: Store, op: Op): (Store, Option<HouseholdError>) {
    match op
    case Create(name, caller, id) =>
      if !ValidName(name) then (s, Some(InvalidName)) else (Inserted(s, name, caller, id), None)
    case AddMember(h, user, role, caller) =>
      if !IsAdmin(s, h, caller) then (s, Some(NotAdmin))
      else
        var (t, r) := WithMember(s, h, user, role, caller);
        (t, if r.Ok? then None else Some(r.error))
    case RemoveMember(h, user, caller) =>
      if !IsAdmin(s, h, caller) then (s, Some(NotAdmin))
      else if !IsMember(s, MemberKey(h, user)) then (s, None)
      else if IsAdmin(s, h, user) && |ActiveAdmins(s, h)| <= 1 then (s, Some(LastAdmin))
      else (WithoutMember(s, h, user), None)
    case CreateUser(h, user, ok, caller) =>
      if !ok then (s, Some(UserStep))
      else
        var (t, r) := WithMember(s, h, user, MEMBER, caller);
        (t, if r.Ok? then None else Some(r.error))
    case Rename(id, name, expected, caller) =>
      if !ValidName(name) then (s, Some(InvalidName))
      else
        var (t, r) := Renamed(s, id, name, expected, caller);
        (t, if r.Ok? then None else Some(r.error))
    case Deactivate(id, _) => (s.(byID := s.byID - {id}), None)
  }

  function Run(ops: seq<Op>): Store {
    if ops == [] then EMPTY else Step(Run(ops[..|ops| - 1]), ops[|ops| - 1]).0
  }

  /** The households created so far, deactivated ones included. */
  function EverCreated(ops: seq<Op>): set<UUID> {
    if ops == [] then {}
    else
      var op := ops[|ops| - 1];
      EverCreated(ops[..|ops| - 1]) + if op.Create? && ValidName(op.name) then {op.newId} else {}
  }

  /** uuid.New never returns an id twice. */
  predicate FreshIds(ops: seq<Op>) {
    forall i, j | 0 <= i < j < |ops| && ops[i].Create? && ops[j].Create? :: ops[i].newId != ops[j].newId
  }

  // ---------- The last admin ----------

  /** Every created household has an active admin; before its creation a household id carries
      neither admins nor tombstones. */
  ghost predicate Governed(s: Store, created: set<UUID>) {
    && (forall h <- created :: exists u :: IsAdmin(s, h, u))
    && (forall k <- s.members :: k.householdId in created || s.members[k].role == MEMBER)
    && (forall k <- s.removed :: k.householdId in created)
  }

  lemma AnotherAdmin(s: Store, h: UUID, user: UUID) returns (other: UUID)
    requires |ActiveAdmins(s, h)| > 1
    ensures other != user && IsAdmin(s, h, other)
  {
    var rest := ActiveAdmins(s, h) - {MemberKey(h, user)};
    assert rest != {} by {
      if rest == {} {
        assert ActiveAdmins(s, h) <= {MemberKey(h, user)};
        SubsetCardinality(ActiveAdmins(s, h), {MemberKey(h, user)});
      }
    }
    var k :| k in rest;
    assert k == MemberKey(h, k.userId);
    other := k.userId;
  }

  lemma SubsetCardinality(a: set<MemberKey>, b: set<MemberKey>)
    requires a <= b
    ensures |a| <= |b|
  {
    assert a + (b - a) == b;
  }

  lemma AdminAfterRemoval(s: Store, h: UUID, user: UUID, g: UUID)
    requires exists u :: IsAdmin(s, g, u)
    requires IsAdmin(s, h, user) ==> |ActiveAdmins(s, h)| > 1
    ensures exists u :: IsAdmin(WithoutMember(s, h, user), g, u)
  {
    var u :| IsAdmin(s, g, u);
    if g == h && u == user {
      var other := AnotherAdmin(s, h, user);
      assert IsAdmin(WithoutMember(s, h, user), g, other);
    } else {
      assert IsAdmin(WithoutMember(s, h, user), g, u);
    }
  }

  lemma AdminAfterAdding(s: Store, h: UUID, user: UUID, role: Role, caller: UUID, g: UUID)
    requires exists u :: IsAdmin(s, g, u)
    ensures exists u :: IsAdmin(WithMember(s, h, user, role, caller).0, g, u)
  {
    var u :| IsAdmin(s, g, u);
    assert IsAdmin(WithMember(s, h, user, role, caller).0, g, u);
  }

  lemma AdminAfterCreation(s: Store, name: string, caller: UUID, id: UUID, g: UUID)
    requires g == id ==> forall k <- s.removed :: k.householdId != id
    requires g != id ==> exists u :: IsAdmin(s, g, u)
    ensures exists u :: IsAdmin(Inserted(s, name, caller, id), g, u)
  {
    if g == id {
      assert IsAdmin(Inserted(s, name, caller, id), g, caller);
    } else {
      var u :| IsAdmin(s, g, u);
      assert IsAdmin(Inserted(s, name, caller, id), g, u);
    }
  }

  lemma CreationKeepsGoverned(s: Store, name: string, caller: UUID, id: UUID, created: set<UUID>)
    requires Governed(s, created) && id !in created
    ensures Governed(Inserted(s, name, caller, id), created + {id})
  {
    var t := Inserted(s, name, caller, id);
    forall h <- created + {id} ensures exists u :: IsAdmin(t, h, u) {
      AdminAfterCreation(s, name, caller, id, h);
    }
    hide IsAdmin;
  }

  lemma AdditionKeepsGoverned(s: Store, h: UUID, user: UUID, role: Role, caller: UUID, created: set<UUID>)
    requires Governed(s, created) && (h in created || role == MEMBER)
    ensures Governed(WithMember(s, h, user, role, caller).0, created)
  {
    var t := WithMember(s, h, user, role, caller).0;
    hide IsAdmin;
    forall g <- created ensures exists u :: IsAdmin(t, g, u) {
      AdminAfterAdding(s, h, user, role, caller, g);
    }
  }

  lemma RemovalKeepsGoverned(s: Store, h: UUID, user: UUID, created: set<UUID>)
    requires Governed(s, created) && h in created
    requires IsAdmin(s, h, user) ==> |ActiveAdmins(s, h)| > 1
    ensures Governed(WithoutMember(s, h, user), created)
  {
    hide IsAdmin, ActiveAdmins;
    var t := WithoutMember(s, h, user);
    forall g <- created ensures exists u :: IsAdmin(t, g, u) {
      AdminAfterRemoval(s, h, user, g);
    }
  }

  /** Renaming and deactivating a household leave its memberships alone. */
  lemma SameMembersKeepGoverned(s: Store, t: Store, created: set<UUID>)
    requires Governed(s, created) && t.members == s.members && t.removed == s.removed
    ensures Governed(t, created)
  {
    forall g <- created ensures exists u :: IsAdmin(t, g, u) {
      var u :| IsAdmin(s, g, u);
      assert IsAdmin(t, g, u);
    }
  }

  lemma AdminsAreInCreated(s: Store, h: UUID, user: UUID, created: set<UUID>)
    requires Governed(s, created) && IsAdmin(s, h, user)
    ensures h in created
  {
  }

  lemma StepKeepsGoverned(s: Store, op: Op, created: set<UUID>)
    requires Governed(s, created)
    requires op.Create? ==> op.newId !in created
    ensures Governed(Step(s, op).0, created + if op.Create? && ValidName(op.name) then {op.newId} else {})
  {
    hide Governed, IsAdmin, ActiveAdmins, WithMember, WithoutMember, Inserted, ValidName;
    assert created + {} == created;
    match op
    case Create(name, caller, id) =>
      CreationKeepsGoverned(s, name, caller, id, created);
    case AddMember(h, user, role, caller) =>
      if IsAdmin(s, h, caller) {
        AdminsAreInCreated(s, h, caller, created);
        AdditionKeepsGoverned(s, h, user, role, caller, created);
      }
    case RemoveMember(h, user, caller) =>
      if IsAdmin(s, h, caller) {
        AdminsAreInCreated(s, h, caller, created);
        if !(IsAdmin(s, h, user) && |ActiveAdmins(s, h)| <= 1) {
          RemovalKeepsGoverned(s, h, user, created);
        }
      }
    case CreateUser(h, user, _, caller) =>
      AdditionKeepsGoverned(s, h, user, MEMBER, caller, created);
    case Rename(_, _, _, _) =>
      SameMembersKeepGoverned(s, Step(s, op).0, created);
    case Deactivate(_, _) =>
      SameMembersKeepGoverned(s, Step(s, op).0, created);
  }

  lemma {:induction false} CreatedIdsAppear(ops: seq<Op>, id: UUID)
    requires id in EverCreated(ops)
    ensures exists i | 0 <= i < |ops| :: ops[i].Create? && ops[i].newId == id
  {
    var n := |ops| - 1;
    if id in EverCreated(ops[..n]) {
      CreatedIdsAppear(ops[..n], id);
      var i :| 0 <= i < n && ops[..n][i].Create? && ops[..n][i].newId == id;
      assert ops[i].newId == id;
    } else {
      assert ops[n].newId == id;
    }
  }

  lemma {:induction false} RunIsGoverned(ops: seq<Op>)
    requires FreshIds(ops)
    ensures Governed(Run(ops), EverCreated(ops))
  {
    if ops != [] {
      hide Governed, Step, Run;
      var n := |ops| - 1;
      RunIsGoverned(ops[..n]);
      if ops[n].Create? && ops[n].newId in EverCreated(ops[..n]) {
        CreatedIdsAppear(ops[..n], ops[n].newId);
        assert false;
      }
      StepKeepsGoverned(Run(ops[..n]), ops[n], EverCreated(ops[..n]));
      RunUnfolds(ops);
    } else {
      assert Governed(EMPTY, {});
    }
  }

  lemma RunUnfolds(ops: seq<Op>)
    requires ops != []
    ensures Run(ops) == Step(Run(ops[..|ops| - 1]), ops[|ops| - 1]).0
  {
  }

  /** After any calls, every household ever created has an active membership with the ADMIN role. */
  lemma NeverWithoutAdmin(ops: seq<Op>, h: UUID)
    requires FreshIds(ops) && h in EverCreated(ops)
    ensures exists u :: IsAdmin(Run(ops), h, u)
    ensures ActiveAdmins(Run(ops), h) != {}
  {
    hide IsAdmin, Run;
    RunIsGoverned(ops);
    var u :| IsAdmin(Run(ops), h, u);
    AdminIsCounted(Run(ops), h, u);
  }

  lemma AdminIsCounted(s: Store, h: UUID, u: UUID)
    ensures IsAdmin(s, h, u) <==> MemberKey(h, u) in ActiveAdmins(s, h)
  {
  }

  // ---------- Former admins ----------

  /** An admin who is removed and added back as a plain member has lost the role, and the household
      still has another admin. */
  lemma ReaddedAdminIsMember(s: Store, h: UUID, user: UUID, caller: UUID)
    requires IsAdmin(s, h, user) && IsAdmin(s, h, caller) && caller != user
    ensures var t := Step(s, RemoveMember(h, user, caller)).0;
            var (w, e) := Step(t, AddMember(h, user, MEMBER, caller));
            && e == None
            && FindMembership(w, h, user) == Ok(Membership(h, user, MEMBER, caller))
            && ActiveAdmins(w, h) == ActiveAdmins(s, h) - {MemberKey(h, user)}
            && ActiveKeys(w, h) == ActiveKeys(s, h)
  {
    AdminIsCounted(s, h, user);
    AdminIsCounted(s, h, caller);
    SubsetCardinality({MemberKey(h, user), MemberKey(h, caller)}, ActiveAdmins(s, h));
    var t := Step(s, RemoveMember(h, user, caller)).0;
    assert t == WithoutMember(s, h, user);
    assert IsAdmin(t, h, caller);
  }

  // ---------- Membership records ----------

  predicate WellKeyed(s: Store) {
    && (forall k <- s.members :: s.members[k].householdId == k.householdId && s.members[k].userId == k.userId)
    && (forall id <- s.byID :: s.byID[id].id == id)
  }

  lemma StepKeepsWellKeyed(s: Store, op: Op)
    requires WellKeyed(s)
    ensures WellKeyed(Step(s, op).0)
  {
    hide IsAdmin, ActiveAdmins, ValidName;
  }

  lemma {:induction false} RunIsWellKeyed(ops: seq<Op>)
    ensures WellKeyed(Run(ops))
  {
    if ops != [] {
      hide Step, WellKeyed;
      RunIsWellKeyed(ops[..|ops| - 1]);
      StepKeepsWellKeyed(Run(ops[..|ops| - 1]), ops[|ops| - 1]);
    }
  }

  /** The memberships that ListForUser turns into households. */
  function KeysForUser(s: Store, userId: UUID): set<MemberKey> {
    set k | k in s.members && s.members[k].userId == userId && k !in s.removed && k.householdId in s.byID
  }

  /** After any calls, a household is listed for a user exactly when it is active and the user's
      membership can be found in it. */
  lemma ListedIffMember(ops: seq<Op>, h: UUID, userId: UUID)
    ensures (exists k <- KeysForUser(Run(ops), userId) :: k.householdId == h) <==>
            (h in Run(ops).byID && FindMembership(Run(ops), h, userId).Ok?)
  {
    hide Run;
    RunIsWellKeyed(ops);
    var s := Run(ops);
    if h in s.byID && FindMembership(s, h, userId).Ok? {
      assert MemberKey(h, userId) in KeysForUser(s, userId);
    }
  }

  // ---------- What each call answers and changes ----------

  /** Only the membership under this key may differ; no household does. */
  predicate SameElsewhere(s: Store, t: Store, key: MemberKey) {
    && t.byID == s.byID
    && (forall k <- s.members :: k != key ==> k in t.members && t.members[k] == s.members[k])
    && (forall k <- t.members :: k != key ==> k in s.members)
    && (forall k <- s.removed :: k != key ==> k in t.removed)
    && (forall k <- t.removed :: k != key ==> k in s.removed)
  }

  /** Only an active admin adds, and only someone who is not an active member. */
  lemma AddMemberAnswer(s: Store, h: UUID, user: UUID, role: Role, caller: UUID)
    ensures var (t, e) := Step(s, AddMember(h, user, role, caller));
            var admin := MemberKey(h, caller) in ActiveAdmins(s, h);
            var active := MemberKey(h, user) in ActiveKeys(s, h);
            && (e == None <==> admin && !active)
            && (e == Some(NotAdmin) <==> !admin)
            && (e == Some(MemberExists) <==> admin && active)
            && (e.Some? ==> t == s)
            && (e == None ==>
                  FindMembership(t, h, user) == Ok(Membership(h, user, role, caller))
                  && SameElsewhere(s, t, MemberKey(h, user)))
  {
  }

  /** Only an active admin removes, nobody who is the one admin left; removing a non-member does nothing. */
  lemma RemoveMemberAnswer(s: Store, h: UUID, user: UUID, caller: UUID)
    ensures var (t, e) := Step(s, RemoveMember(h, user, caller));
            var admin := MemberKey(h, caller) in ActiveAdmins(s, h);
            var last := ActiveAdmins(s, h) == {MemberKey(h, user)};
            && (e == None <==> admin && !last)
            && (e == Some(NotAdmin) <==> !admin)
            && (e == Some(LastAdmin) <==> admin && last)
            && (e.Some? ==> t == s)
            && (e == None ==>
                  FindMembership(t, h, user) == Err(MemberNotFound) && SameElsewhere(s, t, MemberKey(h, user)))
            && (e == None && MemberKey(h, user) !in ActiveKeys(s, h) ==> t == s)
  {
    hide SameElsewhere;
    AdminIsCounted(s, h, caller);
    AdminIsCounted(s, h, user);
    if IsAdmin(s, h, user) {
      OneAdmin(ActiveAdmins(s, h), MemberKey(h, user));
    }
    RemovalIsLocal(s, h, user);
    SameElsewhereItself(s, MemberKey(h, user));
  }

  lemma SameElsewhereItself(s: Store, key: MemberKey)
    ensures SameElsewhere(s, s, key)
  {
  }

  lemma RemovalIsLocal(s: Store, h: UUID, user: UUID)
    ensures SameElsewhere(s, WithoutMember(s, h, user), MemberKey(h, user))
  {
  }

  lemma OneAdmin(admins: set<MemberKey>, k: MemberKey)
    requires k in admins
    ensures |admins| <= 1 <==> admins == {k}
  {
    if |admins| <= 1 {
      SubsetCardinality({k}, admins);
      assert |admins - {k}| == |admins| - 1;
    }
  }

  /** A named household appears under its new id with its creator as the one admin. */
  lemma CreateAnswer(s: Store, name: string, caller: UUID, id: UUID)
    requires id !in s.byID && forall k | k in s.members || k in s.removed :: k.householdId != id
    ensures var (t, e) := Step(s, Create(name, caller, id));
            && (e == None <==> 2 <= |name| <= 100)
            && (e.Some? ==> e.value == InvalidName && t == s)
            && (e == None ==>
                  && id in t.byID && t.byID[id] == Household(id, name, 1, caller, caller)
                  && t.byID - {id} == s.byID
                  && FindMembership(t, id, caller) == Ok(Membership(id, caller, "ADMIN", NIL))
                  && ActiveKeys(t, id) == {MemberKey(id, caller)} && ActiveAdmins(t, id) == ActiveKeys(t, id)
                  && SameElsewhere(s.(byID := t.byID), t, MemberKey(id, caller)))
  {
  }

  /** A user just created joins as MEMBER unless it already belongs to the household. */
  lemma CreateUserAnswer(s: Store, h: UUID, user: UUID, created: bool, caller: UUID)
    ensures var (t, e) := Step(s, CreateUser(h, user, created, caller));
            var active := MemberKey(h, user) in ActiveKeys(s, h);
            && (e == None <==> created && !active)
            && (e == Some(UserStep) <==> !created)
            && (e == Some(MemberExists) <==> created && active)
            && (e.Some? ==> t == s)
            && (e == None ==>
                  FindMembership(t, h, user) == Ok(Membership(h, user, "MEMBER", caller))
                  && SameElsewhere(s, t, MemberKey(h, user)))
  {
  }

  /** Deactivating never fails, takes only that household away and leaves all memberships. */
  lemma DeactivateAnswer(s: Store, id: UUID, caller: UUID)
    ensures var (t, e) := Step(s, Deactivate(id, caller));
            && e == None
            && (forall i :: i in t.byID <==> i in s.byID && i != id)
            && (forall i <- t.byID :: t.byID[i] == s.byID[i])
            && t.members == s.members && t.removed == s.removed
  {
  }

  /** What the accepted calls of a run say about a membership: the latest admission, unless removed since. */
  function Held(ops: seq<Op>, h: UUID, user: UUID): Option<Membership> {
    if ops == [] then None
    else
      var n := |ops| - 1;
      HeldAfter(Held(ops[..n], h, user), ops[n], Step(Run(ops[..n]), ops[n]).1 == None, h, user)
  }

  function HeldAfter(m: Option<Membership>, op: Op, accepted: bool, h: UUID, user: UUID): Option<Membership> {
    if !accepted then m
    else match op
      case Create(_, caller, id) => if id == h && caller == user then Some(Membership(h, user, "ADMIN", NIL)) else m
      case AddMember(g, u, role, caller) => if g == h && u == user then Some(Membership(h, user, role, caller)) else m
      case RemoveMember(g, u, _) => if g == h && u == user then None else m
      case CreateUser(g, u, _, caller) =>
        if g == h && u == user then Some(Membership(h, user, "MEMBER", caller)) else m
      case Rename(_, _, _, _) => m
      case Deactivate(_, _) => m
  }

  /** What they say about a household: the latest name and how often it was renamed, unless deactivated. */
  function Known(ops: seq<Op>, id: UUID): Option<Household> {
    if ops == [] then None
    else
      var n := |ops| - 1;
      KnownAfter(Known(ops[..n], id), ops[n], Step(Run(ops[..n]), ops[n]).1 == None, id)
  }

  function KnownAfter(k: Option<Household>, op: Op, accepted: bool, id: UUID): Option<Household> {
    if !accepted then k
    else match op
      case Create(name, caller, i) => if i == id then Some(Household(id, name, 1, caller, caller)) else k
      case Rename(i, name, _, caller) =>
        if i == id && k.Some? then
          Some(Household(id, name, k.value.version + 1, k.value.createdBy, caller))
        else k
      case Deactivate(i, _) => if i == id then None else k
      case AddMember(_, _, _, _) => k
      case RemoveMember(_, _, _) => k
      case CreateUser(_, _, _, _) => k
  }

  function Membered(m: Option<Membership>): Result<Membership, HouseholdError> {
    match m
    case None => Err(MemberNotFound)
    case Some(x) => Ok(x)
  }

  lemma StepKeepsHeld(s: Store, op: Op, h: UUID, user: UUID, m: Option<Membership>)
    requires FindMembership(s, h, user) == Membered(m)
    requires op.Create? ==> forall k <- s.removed :: k.householdId != op.newId
    ensures FindMembership(Step(s, op).0, h, user) == Membered(HeldAfter(m, op, Step(s, op).1 == None, h, user))
  {
    hide IsAdmin, ActiveAdmins, ValidName;
  }

  lemma NoTombstones(ops: seq<Op>)
    requires ops != [] && FreshIds(ops) && ops[|ops| - 1].Create?
    ensures forall k <- Run(ops[..|ops| - 1]).removed :: k.householdId != ops[|ops| - 1].newId
  {
    hide Run, EverCreated;
    var n := |ops| - 1;
    RunIsGoverned(ops[..n]);
    if ops[n].newId in EverCreated(ops[..n]) {
      CreatedIdsAppear(ops[..n], ops[n].newId);
      assert false;
    }
  }

  /** After any calls a membership is found exactly as the accepted calls left it. */
  lemma {:induction false} MembershipFollowsCalls(ops: seq<Op>, h: UUID, user: UUID)
    requires FreshIds(ops)
    ensures FindMembership(Run(ops), h, user) == Membered(Held(ops, h, user))
  {
    if ops != [] {
      hide Step, FindMembership, HeldAfter, FreshIds;
      var n := |ops| - 1;
      FreshIdsOfFront(ops);
      MembershipFollowsCalls(ops[..n], h, user);
      if ops[n].Create? {
        NoTombstones(ops);
      }
      StepKeepsHeld(Run(ops[..n]), ops[n], h, user, Held(ops[..n], h, user));
    }
  }

  lemma FreshIdsOfFront(ops: seq<Op>)
    requires ops != [] && FreshIds(ops)
    ensures FreshIds(ops[..|ops| - 1])
  {
  }

  predicate HoldsKnown(s: Store, id: UUID, k: Option<Household>) {
    match k
    case None => id !in s.byID
    case Some(x) => id in s.byID && s.byID[id] == x
  }

  lemma StepKeepsKnown(s: Store, op: Op, id: UUID, k: Option<Household>)
    requires HoldsKnown(s, id, k) && (id in s.byID ==> s.byID[id].id == id)
    ensures HoldsKnown(Step(s, op).0, id, KnownAfter(k, op, Step(s, op).1 == None, id))
  {
    hide IsAdmin, ActiveAdmins, ValidName;
  }

  /** After any calls a household has the latest accepted name and one version per accepted renaming. */
  lemma {:induction false} HouseholdFollowsCalls(ops: seq<Op>, id: UUID)
    ensures HoldsKnown(Run(ops), id, Known(ops, id))
  {
    if ops != [] {
      hide Step, HoldsKnown, KnownAfter;
      var n := |ops| - 1;
      HouseholdFollowsCalls(ops[..n], id);
      RunIsWellKeyed(ops[..n]);
      StepKeepsKnown(Run(ops[..n]), ops[n], id, Known(ops[..n], id));
    } else {
      assert id !in EMPTY.byID;
    }
  }

  /** A renaming is accepted exactly for a valid name and a household whose version is the expected one. */
  lemma RenameAnswer(ops: seq<Op>, id: UUID, name: string, expected: int, caller: UUID)
    ensures var e := Step(Run(ops), Rename(id, name, expected, caller)).1;
            var valid, k := 2 <= |name| <= 100, Known(ops, id);
            && (e == None <==> valid && k.Some? && k.value.version == expected)
            && (e == Some(InvalidName) <==> !valid)
            && (e == Some(NotFound) <==> valid && k.None?)
            && (e == Some(VersionConflict) <==> valid && k.Some? && k.value.version != expected)
            && (e.Some? ==> Step(Run(ops), Rename(id, name, expected, caller)).0 == Run(ops))
  {
    hide Run, Known;
    HouseholdFollowsCalls(ops, id);
  }
}
