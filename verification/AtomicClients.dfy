/** The two users of RunAtomic that write more than one row: the bootstrap seeder and the creation
    of a household user. */
module AtomicClients {
  import opened Wrappers
  import opened Uuid
  import opened GoText
  import Households
  import opened Transactor

  datatype UserRow = UserRow(email: string, displayName: string, passwordHash: string)

  datatype Directory = Directory(users: map<UUID, UserRow>, households: map<UUID, string>,
                                 members: map<Households.MemberKey, Households.Role>)

  const NO_ROWS := Directory(map[], map[], map[])

  function InsertUser(id: UUID, row: UserRow): Directory -> Directory {
    (d: Directory) => d.(users := d.users[id := row])
  }

  function InsertHousehold(id: UUID, name: string): Directory -> Directory {
    (d: Directory) => d.(households := d.households[id := name])
  }

  function InsertMember(key: Households.MemberKey, role: Households.Role): Directory -> Directory {
    (d: Directory) => d.(members := d.members[key := role])
  }

  /** A statement that the database may refuse for a reason of its own. */
  function Guarded(fails: bool, error: int, statement: Prog<Directory>): Prog<Directory> {
    if fails then Raise(error) else statement
  }

  const CREATE_USER := 1
  const CREATE_HOUSEHOLD := 2
  const EMAIL_TAKEN := 3
  const ADD_MEMBER := 4
  const MEMBER_EXISTS := 5

  // ---------- Bootstrap ----------

  datatype SeedInput = SeedInput(email: string, displayName: string, password: string, householdName: string)

  /** The steps of one run that fail. */
  datatype Faults = Faults(check: bool, hash: bool, user: bool, household: bool, member: bool)

  /** One run of the seeder with the ids the database assigns during it. */
  datatype Call = Call(input: SeedInput, passwordHash: string, userId: UUID, householdId: UUID, faults: Faults)

  datatype SeedError = CheckExists | HashPassword | SeedTransaction

  datatype SeedResult = AlreadySeeded | Created(userId: UUID, householdId: UUID)

  /** HouseholdRepo.Create inserts the household and then its founding membership. */
  function SeedProgram(c: Call): Prog<Directory> {
    Sequence(
      Guarded(c.faults.user, CREATE_USER,
              Write(InsertUser(c.userId, UserRow(c.input.email, c.input.displayName, c.passwordHash)))),
      Sequence(
        Guarded(c.faults.household, CREATE_HOUSEHOLD, Write(InsertHousehold(c.householdId, c.input.householdName))),
        Guarded(c.faults.member, CREATE_HOUSEHOLD,
                Write(InsertMember(Households.MemberKey(c.householdId, c.userId), Households.ADMIN)))))
  }

  function Seed(s: Session<Directory>, c: Call, pool: nat -> Supply):
    (Session<Directory>, Result<SeedResult, SeedError>)
  {
    if c.faults.check then (s, Err(CheckExists))
    else if s.Visible().users != map[] then (s, Ok(AlreadySeeded))
    else if c.faults.hash then (s, Err(HashPassword))
    else
      var (t, o) := Eval(Atomic(SeedProgram(c)), s, pool);
      (t, if o == Done then Ok(Created(c.userId, c.householdId)) else Err(SeedTransaction))
  }

  method RunSeeder(tx: PostgresTransactor<Directory>, c: Call) returns (r: Result<SeedResult, SeedError>)
    modifies tx
    ensures (tx.State(), r) == Seed(old(tx.State()), c, tx.pool)
  {
    if c.faults.check {
      return Err(CheckExists);
    }
    var visible := if tx.working.Some? then tx.working.value else tx.committed;
    if visible.users != map[] {
      return Ok(AlreadySeeded);
    }
    if c.faults.hash {
      return Err(HashPassword);
    }
    var o := tx.RunAtomic(SeedProgram(c));
    if o != Done {
      return Err(SeedTransaction);
    }
    r := Ok(Created(c.userId, c.householdId));
  }

  /** What a successful bootstrap leaves behind. */
  function SeededBy(c: Call): Directory {
    Directory(map[c.userId := UserRow(c.input.email, c.input.displayName, c.passwordHash)],
              map[c.householdId := c.input.householdName],
              map[Households.MemberKey(c.householdId, c.userId) := Households.ADMIN])
  }

  predicate NoStepFails(c: Call) {
    !c.faults.user && !c.faults.household && !c.faults.member
  }

  lemma SeedTrace(c: Call)
    ensures Trace(SeedProgram(c), NO_ROWS).1 == Done <==> NoStepFails(c)
    ensures NoStepFails(c) ==> Replay(Trace(SeedProgram(c), NO_ROWS).0, NO_ROWS) == SeededBy(c)
  {
    if NoStepFails(c) {
      var f := InsertUser(c.userId, UserRow(c.input.email, c.input.displayName, c.passwordHash));
      var g := InsertHousehold(c.householdId, c.input.householdName);
      var h := InsertMember(Households.MemberKey(c.householdId, c.userId), Households.ADMIN);
      ReplayOne(f, NO_ROWS);
      ReplayOne(g, f(NO_ROWS));
      assert Trace(SeedProgram(c), NO_ROWS).0 == [f] + ([g] + [h]);
      ReplayOne(h, g(f(NO_ROWS)));
      ReplayAppend([g], [h], f(NO_ROWS));
      ReplayAppend([f], [g] + [h], NO_ROWS);
    }
  }

  lemma ReplayOne<S>(f: S -> S, s: S)
    ensures Replay([f], s) == f(s)
  {
    assert [f][..0] == [];
  }

  /** One run on an empty database writes everything or nothing; on any other it writes nothing. */
  lemma SeedIsAllOrNothing(s: Session<Directory>, c: Call, pool: nat -> Supply)
    requires s.working.None? && (s.committed == NO_ROWS || s.committed.users != map[])
    ensures var (t, r) := Seed(s, c, pool);
            && t.working.None?
            && (r.Ok? && r.value.Created? <==>
                  !c.faults.check && s.committed == NO_ROWS && !c.faults.hash && NoStepFails(c)
                  && pool(s.begun) == Supply(true, true))
            && (r.Ok? && r.value.Created? ==> r.value == Created(c.userId, c.householdId))
            && t.committed == (if r.Ok? && r.value.Created? then SeededBy(c) else s.committed)
            && (s.committed != NO_ROWS ==>
                  t == s && r == if c.faults.check then Err(CheckExists) else Ok(AlreadySeeded))
            && (r == Err(CheckExists) <==> c.faults.check)
            && (r == Err(HashPassword) <==> !c.faults.check && s.committed == NO_ROWS && c.faults.hash)
            && (r == Err(CheckExists) || r == Err(HashPassword) ==> t == s)
  {
    hide SeedProgram, Eval, Trace, Replay;
    SeedTrace(c);
    OutermostIsAtomic(SeedProgram(c), s, pool);
  }

  function SeedAll(s: Session<Directory>, calls: seq<Call>, pool: nat -> Supply): Session<Directory> {
    if calls == [] then s else Seed(SeedAll(s, calls[..|calls| - 1], pool), calls[|calls| - 1], pool).0
  }

  /** The runs that reported a newly created user. */
  function Successes(s: Session<Directory>, calls: seq<Call>, pool: nat -> Supply): seq<Call> {
    if calls == [] then []
    else
      var n := |calls| - 1;
      var r := Seed(SeedAll(s, calls[..n], pool), calls[n], pool).1;
      Successes(s, calls[..n], pool) + if r.Ok? && r.value.Created? then [calls[n]] else []
  }

  lemma SeededHasRows(c: Call)
    ensures SeededBy(c).users != map[] && SeededBy(c) != NO_ROWS
  {
    assert c.userId in SeededBy(c).users;
  }

  /** Starting without rows, any sequence of runs failing anywhere has at most one success; there are
      no rows before it, and exactly its one user, one household and ADMIN membership after it. */
  lemma {:induction false} BootstrapAllOrNothing(s: Session<Directory>, calls: seq<Call>, pool: nat -> Supply)
    requires s.working.None? && s.committed == NO_ROWS
    ensures var t, won := SeedAll(s, calls, pool), Successes(s, calls, pool);
            && t.working.None?
            && |won| <= 1
            && t.committed == (if won == [] then NO_ROWS else SeededBy(won[0]))
  {
    if calls != [] {
      hide Seed;
      var n := |calls| - 1;
      BootstrapAllOrNothing(s, calls[..n], pool);
      var won := Successes(s, calls[..n], pool);
      if won != [] {
        SeededHasRows(won[0]);
      }
      SeedIsAllOrNothing(SeedAll(s, calls[..n], pool), calls[n], pool);
    }
  }

  /** After a success no later run changes the database; each reports AlreadySeeded unless its own
      existence check fails. */
  lemma {:induction false} SeededForGood(s: Session<Directory>, calls: seq<Call>, pool: nat -> Supply)
    requires s.working.None? && s.committed.users != map[]
    ensures SeedAll(s, calls, pool) == s
    ensures forall k | 0 <= k < |calls| ::
              Seed(SeedAll(s, calls[..k], pool), calls[k], pool).1 ==
              if calls[k].faults.check then Err(CheckExists) else Ok(AlreadySeeded)
  {
    if calls != [] {
      hide Seed, SeededBy, NoStepFails;
      var n := |calls| - 1;
      SeededForGood(s, calls[..n], pool);
      SeedIsAllOrNothing(s, calls[n], pool);
      forall k | 0 <= k < |calls|
        ensures Seed(SeedAll(s, calls[..k], pool), calls[k], pool).1 ==
                if calls[k].faults.check then Err(CheckExists) else Ok(AlreadySeeded)
      {
        if k < n {
          assert calls[..n][..k] == calls[..k] && calls[..n][k] == calls[k];
        }
      }
    }
  }

  // ---------- Household users ----------

  datatype NewUser = NewUser(email: string, displayName: string, passwordHash: string)

  predicate EmailTaken(d: Directory, email: string) {
    exists id <- d.users :: ToLower(d.users[id].email) == ToLower(email)
  }

  /** Create the user, then its MEMBER membership; registerFails covers validation and hashing. */
  function CreateUserProgram(householdId: UUID, user: NewUser, userId: UUID, registerFails: bool): Prog<Directory> {
    var key := Households.MemberKey(householdId, userId);
    Sequence(
      Guarded(registerFails, CREATE_USER,
        Branch((d: Directory) => EmailTaken(d, user.email), Raise(EMAIL_TAKEN),
               Write(InsertUser(userId, UserRow(user.email, user.displayName, user.passwordHash))))),
      Branch((d: Directory) => householdId !in d.households, Raise(ADD_MEMBER),
        Branch((d: Directory) => key in d.members, Raise(MEMBER_EXISTS), Write(InsertMember(key, Households.MEMBER)))))
  }

  /** The first step that the directory refuses. */
  function CreationError(d: Directory, householdId: UUID, user: NewUser, registerFails: bool): int {
    if registerFails then CREATE_USER
    else if EmailTaken(d, user.email) then EMAIL_TAKEN
    else if householdId !in d.households then ADD_MEMBER
    else MEMBER_EXISTS
  }

  method CreateHouseholdUser(tx: PostgresTransactor<Directory>, householdId: UUID, user: NewUser, userId: UUID,
                             registerFails: bool)
    returns (o: Outcome)
    requires tx.working.None?
    modifies tx
    ensures var d := old(tx.committed);
            var created := !registerFails && !EmailTaken(d, user.email) && householdId in d.households
                           && Households.MemberKey(householdId, userId) !in d.members
                           && tx.pool(old(tx.begun)) == Supply(true, true);
            && tx.working.None?
            && (o == Done <==> created)
            && (o == Done || o == Failed || o == Raised(CreationError(d, householdId, user, registerFails)))
            && tx.committed == if created then UserWithMembership(d, householdId, user, userId) else d
  {
    hide CreateUserProgram, Eval, Trace, Replay;
    CreateUserTrace(tx.committed, householdId, user, userId, registerFails);
    OutermostIsAtomic(CreateUserProgram(householdId, user, userId, registerFails), tx.State(), tx.pool);
    o := tx.RunAtomic(CreateUserProgram(householdId, user, userId, registerFails));
  }

  /** Both rows, with the plain MEMBER role. */
  function UserWithMembership(d: Directory, householdId: UUID, user: NewUser, userId: UUID): Directory {
    Directory(d.users[userId := UserRow(user.email, user.displayName, user.passwordHash)],
              d.households,
              d.members[Households.MemberKey(householdId, userId) := Households.MEMBER])
  }

  lemma CreateUserTrace(d: Directory, householdId: UUID, user: NewUser, userId: UUID, registerFails: bool)
    ensures var (w, o) := Trace(CreateUserProgram(householdId, user, userId, registerFails), d);
            && (o == Done <==> !registerFails && !EmailTaken(d, user.email) && householdId in d.households
                               && Households.MemberKey(householdId, userId) !in d.members)
            && (o == Done ==> Replay(w, d) == UserWithMembership(d, householdId, user, userId))
            && (o != Done ==> o == Raised(CreationError(d, householdId, user, registerFails)))
  {
    hide EmailTaken;
    var f := InsertUser(userId, UserRow(user.email, user.displayName, user.passwordHash));
    var g := InsertMember(Households.MemberKey(householdId, userId), Households.MEMBER);
    ReplayOne(f, d);
    ReplayOne(g, f(d));
    ReplayAppend([f], [g], d);
  }
}
