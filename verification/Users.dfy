/** Users under two indexes, their passwords and their login tokens, on values. */
module Users {
  import opened Wrappers
  import opened Uuid
  import opened GoText

  datatype User = User(id: UUID, email: string, displayName: string, passwordHash: string, version: int,
                       createdBy: UUID, updatedBy: UUID)

  datatype Store = Store(byEmail: map<string, User>, byID: map<UUID, User>)

  datatype UserError = Invalid | EmailTaken | NotFound | VersionConflict | InvalidCredentials

  // ---------- Passwords ----------

  /** FakeHasher.Hash with its own validation. */
  function Hash(password: string): Option<string> {
    if password == "" || |password| > 1000 then None else Some("fake:" + password)
  }

  predicate Verify(password: string, hash: string) {
    hash == "fake:" + password
  }

  lemma VerifyIsExact(p: string, q: string)
    ensures Verify(p, "fake:" + q) <==> p == q
  {
    assert ("fake:" + p)[5..] == p && ("fake:" + q)[5..] == q;
  }

  // ---------- Repository operations ----------

  /** Both indexes receive the same record. */
  function Stored(s: Store, u: User): Store {
    Store(s.byEmail[ToLower(u.email) := u], s.byID[u.id := u])
  }

  function Created(s: Store, email: string, displayName: string, hash: string, callerId: UUID, newId: UUID):
    (Store, Result<User, UserError>)
  {
    if ToLower(email) in s.byEmail then (s, Err(EmailTaken))
    else
      var u := User(newId, email, displayName, hash, 1, callerId, callerId);
      (Stored(s, u), Ok(u))
  }

  function FindByID(s: Store, id: UUID): Result<User, UserError> {
    if id in s.byID then Ok(s.byID[id]) else Err(NotFound)
  }

  function FindByEmail(s: Store, email: string): Result<User, UserError> {
    if ToLower(email) in s.byEmail then Ok(s.byEmail[ToLower(email)]) else Err(InvalidCredentials)
  }

  function WithProfile(s: Store, id: UUID, displayName: string, expected: int, callerId: UUID):
    (Store, Result<User, UserError>)
  {
    if id !in s.byID then (s, Err(NotFound))
    else if s.byID[id].version != expected then (s, Err(VersionConflict))
    else
      var u := s.byID[id].(displayName := displayName, version := expected + 1, updatedBy := callerId);
      (Store(s.byEmail[ToLower(u.email) := u], s.byID[id := u]), Ok(u))
  }

  function WithPassword(s: Store, id: UUID, newHash: string, expected: int, callerId: UUID):
    (Store, Result<User, UserError>)
  {
    if id !in s.byID then (s, Err(NotFound))
    else if s.byID[id].version != expected then (s, Err(VersionConflict))
    else
      var u := s.byID[id].(passwordHash := newHash, version := expected + 1, updatedBy := callerId);
      (Store(s.byEmail[ToLower(u.email) := u], s.byID[id := u]), Ok(u))
  }

  function Deactivated(s: Store, id: UUID): Store {
    if id !in s.byID then s else Store(s.byEmail - {ToLower(s.byID[id].email)}, s.byID - {id})
  }

  // ---------- Logic-layer operations ----------

  predicate ValidDisplayName(name: string) {
    2 <= |name| <= 100
  }

  function Registered(s: Store, email: string, displayName: string, password: string, callerId: UUID, newId: UUID):
    (Store, Result<User, UserError>)
  {
    if email == "" || !ValidDisplayName(displayName) || |password| < 8 then (s, Err(Invalid))
    else match Hash(password)
      case None => (s, Err(Invalid))
      case Some(hash) => Created(s, email, displayName, hash, callerId, newId)
  }

  function ProfileUpdated(s: Store, id: UUID, displayName: string, expected: int, callerId: UUID):
    (Store, Result<User, UserError>)
  {
    if !ValidDisplayName(displayName) then (s, Err(Invalid))
    else WithProfile(s, id, displayName, expected, callerId)
  }

  function PasswordChanged(s: Store, id: UUID, oldPassword: string, newPassword: string, expected: int, callerId: UUID):
    (Store, Result<User, UserError>)
  {
    if oldPassword == "" || |newPassword| < 8 then (s, Err(Invalid))
    else if id !in s.byID then (s, Err(NotFound))
    else if !Verify(oldPassword, s.byID[id].passwordHash) then (s, Err(InvalidCredentials))
    else match Hash(newPassword)
      case None => (s, Err(Invalid))
      case Some(hash) => WithPassword(s, id, hash, expected, callerId)
  }

  // ---------- Tokens ----------

  datatype TokenEntry = TokenEntry(userId: UUID, expiresAt: int)

  datatype TokenError = TokenInvalid | TokenExpired

  type Tokens = map<string, TokenEntry>

  function TokenText(tokenId: UUID): string {
    "fake-" + Text(tokenId)
  }

  lemma TokenTextInjective(a: UUID, b: UUID)
    ensures TokenText(a) == TokenText(b) <==> a == b
  {
    hide Text;
    assert TokenText(a)[5..] == Text(a) && TokenText(b)[5..] == Text(b);
    TextInjective(a, b);
  }

  function Issued(ts: Tokens, userId: UUID, expiresAt: int, tokenId: UUID): Tokens {
    ts[TokenText(tokenId) := TokenEntry(userId, expiresAt)]
  }

  function Validate(ts: Tokens, token: string, now: int): Result<UUID, TokenError> {
    if token !in ts then Err(TokenInvalid)
    else if now > ts[token].expiresAt then Err(TokenExpired)
    else Ok(ts[token].userId)
  }

  // ---------- Runs ----------

  datatype System = System(users: Store, tokens: Tokens)

  const EMPTY := System(Store(map[], map[]), map[])

  datatype LoginResult = LoginResult(token: string, expiresAt: int)

  /** ttl is the token lifetime and now the clock reading of the call. */
  function LoggedIn(s: System, email: string, password: string, now: int, ttl: int, tokenId: UUID):
    (System, Result<LoginResult, UserError>)
  {
    match FindByEmail(s.users, email)
    case Err(_) => (s, Err(InvalidCredentials))
    case Ok(u) =>
      if !Verify(password, u.passwordHash) then (s, Err(InvalidCredentials))
      else (s.(tokens := Issued(s.tokens, u.id, now + ttl, tokenId)), Ok(LoginResult(TokenText(tokenId), now + ttl)))
  }

  datatype Op =
    | Register(email: string, displayName: string, password: string, callerId: UUID, newId: UUID)
    | UpdateProfile(id: UUID, newDisplayName: string, expected: int, callerId: UUID)
    | ChangePassword(id: UUID, oldPassword: string, newPassword: string, expected: int, callerId: UUID)
    | Deactivate(id: UUID)
    | Login(loginEmail: string, loginPassword: string, now: int, ttl: int, tokenId: UUID)

  /** One logic-layer call; the flag says whether it returned without an error. */
  function Step(s: System, op: Op): (System, bool) {
    match op
    case Register(email, name, password, caller, id) =>
      var (t, r) := Registered(s.users, email, name, password, caller, id);
      (s.(users := t), r.Ok?)
    case UpdateProfile(id, name, v, caller) =>
      var (t, r) := ProfileUpdated(s.users, id, name, v, caller);
      (s.(users := t), r.Ok?)
    case ChangePassword(id, oldP, newP, v, caller) =>
      var (t, r) := PasswordChanged(s.users, id, oldP, newP, v, caller);
      (s.(users := t), r.Ok?)
    case Deactivate(id) => (s.(users := Deactivated(s.users, id)), true)
    case Login(e, p, now, ttl, tokenId) =>
      var (t, r) := LoggedIn(s, e, p, now, ttl, tokenId);
      (t, r.Ok?)
  }

  function Run(ops: seq<Op>): System {
    if ops == [] then EMPTY else Step(Run(ops[..|ops| - 1]), ops[|ops| - 1]).0
  }

  /** uuid.New never returns an id twice, for users or for tokens. */
  predicate FreshIds(ops: seq<Op>) {
    && (forall i, j | 0 <= i < j < |ops| && ops[i].Register? && ops[j].Register? :: ops[i].newId != ops[j].newId)
    && (forall i, j | 0 <= i < j < |ops| && ops[i].Login? && ops[j].Login? :: ops[i].tokenId != ops[j].tokenId)
  }

  // ---------- The two indexes agree ----------

  /** The same users under both keys, with identical records. */
  predicate DualIndexed(s: Store) {
    && (forall id <- s.byID :: s.byID[id].id == id && ToLower(s.byID[id].email) in s.byEmail
                            && s.byEmail[ToLower(s.byID[id].email)] == s.byID[id])
    && (forall e <- s.byEmail :: ToLower(s.byEmail[e].email) == e && s.byEmail[e].id in s.byID
                              && s.byID[s.byEmail[e].id] == s.byEmail[e])
  }

  /** Writing a record under both keys keeps them in agreement if neither key belongs to anyone else. */
  lemma StoredKeepsDualIndexed(s: Store, u: User)
    requires DualIndexed(s)
    requires u.id in s.byID ==> ToLower(s.byID[u.id].email) == ToLower(u.email)
    requires ToLower(u.email) in s.byEmail ==> s.byEmail[ToLower(u.email)].id == u.id
    ensures DualIndexed(Stored(s, u))
  {
    hide ToLower;
  }

  lemma DeactivatedKeepsDualIndexed(s: Store, id: UUID)
    requires DualIndexed(s)
    ensures DualIndexed(Deactivated(s, id))
  {
    hide ToLower;
  }

  lemma StepKeepsDualIndexed(s: System, op: Op)
    requires DualIndexed(s.users) && (op.Register? ==> op.newId !in s.users.byID)
    ensures DualIndexed(Step(s, op).0.users)
  {
    hide ToLower, Hash, Verify, ValidDisplayName, TokenText;
    var t := Step(s, op).0.users;
    match op
    case Register(email, _, _, _, id) =>
      if t != s.users {
        StoredKeepsDualIndexed(s.users, t.byID[id]);
      }
    case UpdateProfile(id, _, _, _) =>
      if t != s.users {
        StoredKeepsDualIndexed(s.users, t.byID[id]);
      }
    case ChangePassword(id, _, _, _, _) =>
      if t != s.users {
        StoredKeepsDualIndexed(s.users, t.byID[id]);
      }
    case Deactivate(id) =>
      DeactivatedKeepsDualIndexed(s.users, id);
    case Login(_, _, _, _, _) =>
  }

  lemma {:induction false} LiveIdsWereRegistered(ops: seq<Op>, id: UUID)
    requires id in Run(ops).users.byID
    ensures exists i | 0 <= i < |ops| :: ops[i].Register? && ops[i].newId == id
  {
    hide ToLower, Hash, Verify, ValidDisplayName, TokenText;
    var n := |ops| - 1;
    if id in Run(ops[..n]).users.byID {
      LiveIdsWereRegistered(ops[..n], id);
      var i :| 0 <= i < n && ops[..n][i].Register? && ops[..n][i].newId == id;
      assert ops[i].newId == id;
    } else {
      assert ops[n].Register? && ops[n].newId == id;
    }
  }

  lemma {:induction false} RunIsDualIndexed(ops: seq<Op>)
    requires FreshIds(ops)
    ensures DualIndexed(Run(ops).users)
  {
    if ops != [] {
      hide Step, DualIndexed;
      RunIsDualIndexed(ops[..|ops| - 1]);
      FreshRegistration(ops);
      StepKeepsDualIndexed(Run(ops[..|ops| - 1]), ops[|ops| - 1]);
    } else {
      assert DualIndexed(EMPTY.users);
    }
  }

  lemma FreshRegistration(ops: seq<Op>)
    requires ops != [] && FreshIds(ops)
    ensures var n := |ops| - 1; ops[n].Register? ==> ops[n].newId !in Run(ops[..n]).users.byID
  {
    hide Run;
    var n := |ops| - 1;
    if ops[n].Register? && ops[n].newId in Run(ops[..n]).users.byID {
      LiveIdsWereRegistered(ops[..n], ops[n].newId);
    }
  }

  /** After any calls no two active users share an email ignoring case. */
  lemma EmailsAreUnique(ops: seq<Op>, x: UUID, y: UUID)
    requires FreshIds(ops) && x in Run(ops).users.byID && y in Run(ops).users.byID
    requires ToLower(Run(ops).users.byID[x].email) == ToLower(Run(ops).users.byID[y].email)
    ensures x == y
  {
    hide Run, ToLower;
    RunIsDualIndexed(ops);
  }

  // ---------- Login reflects the last accepted password ----------

  /** What is known of a user from the accepted calls alone. */
  datatype Profile = Profile(email: string, displayName: string, password: string, version: int,
                             createdBy: UUID, updatedBy: UUID)

  /** What the history of accepted calls says about a user: the email of the registration, the latest accepted
      name and password, one version per accepted update, or nothing once deactivated. */
  function Current(ops: seq<Op>, id: UUID): Option<Profile> {
    if ops == [] then None
    else
      var n := |ops| - 1;
      After(Current(ops[..n], id), ops[n], Step(Run(ops[..n]), ops[n]).1, id)
  }

  function After(c: Option<Profile>, op: Op, accepted: bool, id: UUID): Option<Profile> {
    if !accepted then c
    else match op
      case Register(email, name, password, caller, newId) =>
        if newId == id then Some(Profile(email, name, password, 1, caller, caller)) else c
      case UpdateProfile(i, name, _, caller) =>
        if i == id && c.Some? then
          Some(c.value.(displayName := name, version := c.value.version + 1, updatedBy := caller))
        else c
      case ChangePassword(i, _, newPassword, _, caller) =>
        if i == id && c.Some? then
          Some(c.value.(password := newPassword, version := c.value.version + 1, updatedBy := caller))
        else c
      case Deactivate(i) => if i == id then None else c
      case Login(_, _, _, _, _) => c
  }

  function Recorded(id: UUID, k: Profile): User {
    User(id, k.email, k.displayName, "fake:" + k.password, k.version, k.createdBy, k.updatedBy)
  }

  /** The store holds exactly the user that the history describes. */
  predicate Describes(s: Store, id: UUID, c: Option<Profile>) {
    match c
    case None => id !in s.byID
    case Some(k) => id in s.byID && s.byID[id] == Recorded(id, k)
  }

  lemma StepKeepsDescription(s: System, op: Op, id: UUID, c: Option<Profile>)
    requires Describes(s.users, id, c)
    ensures Describes(Step(s, op).0.users, id, After(c, op, Step(s, op).1, id))
  {
    hide ToLower, Verify, ValidDisplayName, TokenText;
  }

  lemma {:induction false} RunMatchesHistory(ops: seq<Op>, id: UUID)
    ensures Describes(Run(ops).users, id, Current(ops, id))
  {
    hide Step, After, Describes;
    if ops != [] {
      var n := |ops| - 1;
      RunMatchesHistory(ops[..n], id);
      StepKeepsDescription(Run(ops[..n]), ops[n], id, Current(ops[..n], id));
    } else {
      NobodyAtFirst(id);
    }
  }

  lemma NobodyAtFirst(id: UUID)
    ensures Describes(EMPTY.users, id, None)
  {
  }

  /** After any calls an id is found exactly while the history has a user for it, and then as that very record;
      the email finds the same record. */
  lemma FoundIffCurrent(ops: seq<Op>, id: UUID)
    ensures var found, c := FindByID(Run(ops).users, id), Current(ops, id);
            && (found.Ok? <==> c.Some?)
            && (found.Ok? ==> found.value == Recorded(id, c.value))
            && (found.Err? ==> found.error == NotFound)
            && (found.Ok? && FreshIds(ops) ==> FindByEmail(Run(ops).users, c.value.email) == found)
  {
    hide Run, Current, ToLower, FreshIds;
    RunMatchesHistory(ops, id);
    if FreshIds(ops) {
      RunIsDualIndexed(ops);
    }
  }

  /** Some user of the history has this email, ignoring case. */
  ghost predicate EmailInUse(ops: seq<Op>, email: string) {
    exists id :: Current(ops, id).Some? && ToLower(Current(ops, id).value.email) == ToLower(email)
  }

  /** An email is found exactly while some user of the history has it, ignoring case. */
  lemma EmailFoundIffCurrent(ops: seq<Op>, email: string)
    requires FreshIds(ops)
    ensures FindByEmail(Run(ops).users, email).Ok? <==> EmailInUse(ops, email)
    ensures FindByEmail(Run(ops).users, email).Err? ==>
              FindByEmail(Run(ops).users, email) == Err(InvalidCredentials)
  {
    hide Run, Current, ToLower, FreshIds;
    RunIsDualIndexed(ops);
    var found := FindByEmail(Run(ops).users, email);
    if found.Ok? {
      RunMatchesHistory(ops, found.value.id);
      assert Current(ops, found.value.id).Some?;
    }
    forall id | Current(ops, id).Some? && ToLower(Current(ops, id).value.email) == ToLower(email) ensures found.Ok? {
      RunMatchesHistory(ops, id);
    }
  }

  // ---------- What each call answers ----------

  lemma HashedIs(password: string)
    ensures Hash(password).Some? <==> 1 <= |password| <= 1000
    ensures Hash(password).Some? ==> Hash(password).value == "fake:" + password
  {
  }

  /** A registration is accepted exactly for an email nobody active has ignoring case, a name of 2 to 100
      characters and a password of 8 to 1000, and returns the record that its id finds from then on. */
  lemma RegisterAnswer(ops: seq<Op>, email: string, name: string, password: string, caller: UUID, id: UUID)
    requires FreshIds(ops)
    ensures var (t, r) := Registered(Run(ops).users, email, name, password, caller, id);
            var valid := email != "" && 2 <= |name| <= 100 && 8 <= |password| <= 1000;
            && (r.Ok? <==> valid && !EmailInUse(ops, email))
            && (r == Err(Invalid) <==> !valid)
            && (r == Err(EmailTaken) <==> valid && EmailInUse(ops, email))
            && (r.Err? ==> t == Run(ops).users)
            && (r.Ok? ==> r.value == Recorded(id, Profile(email, name, password, 1, caller, caller)))
            && (r.Ok? ==> FindByID(t, id) == r)
  {
    hide Run, Current, ToLower, Hash, FreshIds, EmailInUse;
    HashedIs(password);
    EmailFoundIffCurrent(ops, email);
  }

  /** The repository's own updates are accepted exactly for a stored user at the expected version. */
  lemma RepositoryUpdateAnswer(s: Store, id: UUID, text: string, expected: int, caller: UUID)
    ensures var (t, r) := WithPassword(s, id, text, expected, caller);
            var (u, q) := WithProfile(s, id, text, expected, caller);
            && (r.Ok? <==> q.Ok?) && (r.Err? ==> r == q && t == u == s)
            && (r == Err(NotFound) <==> id !in s.byID)
            && (r == Err(VersionConflict) <==> id in s.byID && s.byID[id].version != expected)
            && (r.Ok? ==> FindByID(t, id) == r && FindByID(u, id) == q)
            && (r.Ok? ==> r.value.passwordHash == text && q.value.displayName == text)
            && (r.Ok? ==> r.value.version == expected + 1 == q.value.version)
  {
    hide ToLower;
  }

  /** A password change is accepted exactly when the new password is admissible, the user is active, the old
      password is the user's latest accepted one, and the version is the expected one. */
  lemma ChangePasswordAnswer(ops: seq<Op>, id: UUID, oldPassword: string, newPassword: string, expected: int,
                             caller: UUID)
    ensures var (t, r) := PasswordChanged(Run(ops).users, id, oldPassword, newPassword, expected, caller);
            var c := Current(ops, id);
            var given := oldPassword != "" && |newPassword| >= 8;
            var knows := given && c.Some? && c.value.password == oldPassword;
            && (r.Ok? <==> knows && |newPassword| <= 1000 && c.value.version == expected)
            && (r == Err(NotFound) <==> given && c.None?)
            && (r == Err(InvalidCredentials) <==> given && c.Some? && !knows)
            && (r == Err(Invalid) <==> !given || (knows && |newPassword| > 1000))
            && (r == Err(VersionConflict) <==> knows && |newPassword| <= 1000 && c.value.version != expected)
            && (r.Err? ==> t == Run(ops).users)
            && (r.Ok? ==> FindByID(t, id) == r && Verify(newPassword, r.value.passwordHash))
  {
    hide Run, Current, ToLower, Hash;
    HashedIs(newPassword);
    RunMatchesHistory(ops, id);
    if Current(ops, id).Some? {
      VerifyIsExact(oldPassword, Current(ops, id).value.password);
    }
  }

  /** A profile update is accepted exactly for a valid name, an active user and the expected version. */
  lemma UpdateProfileAnswer(ops: seq<Op>, id: UUID, name: string, expected: int, caller: UUID)
    ensures var (t, r) := ProfileUpdated(Run(ops).users, id, name, expected, caller);
            var valid, c := 2 <= |name| <= 100, Current(ops, id);
            && (r.Ok? <==> valid && c.Some? && c.value.version == expected)
            && (r == Err(Invalid) <==> !valid)
            && (r == Err(NotFound) <==> valid && c.None?)
            && (r == Err(VersionConflict) <==> valid && c.Some? && c.value.version != expected)
            && (r.Err? ==> t == Run(ops).users)
            && (r.Ok? ==> FindByID(t, id) == r && r.value.displayName == name)
  {
    hide Run, Current, ToLower;
    RunMatchesHistory(ops, id);
  }

  /** Deactivating never fails; afterwards that id is not found and every other is found as before. */
  lemma DeactivateAnswer(ops: seq<Op>, id: UUID)
    requires FreshIds(ops)
    ensures var (t, ok) := Step(Run(ops), Deactivate(id));
            && ok && t.tokens == Run(ops).tokens
            && FindByID(t.users, id) == Err(NotFound)
            && (forall i | i != id :: FindByID(t.users, i) == FindByID(Run(ops).users, i))
            && (Current(ops, id).Some? ==> FindByEmail(t.users, Current(ops, id).value.email).Err?)
  {
    hide Run, Current, ToLower, FreshIds;
    RunMatchesHistory(ops, id);
    RunIsDualIndexed(ops);
  }

  /** Some active user has this email ignoring case and this as the latest accepted password. */
  ghost predicate Authentic(ops: seq<Op>, email: string, password: string, id: UUID) {
    var c := Current(ops, id);
    c.Some? && ToLower(c.value.email) == ToLower(email) && c.value.password == password
  }

  /** After any calls a login succeeds exactly for such a user, and its token names that user. */
  lemma LoginIffAuthentic(ops: seq<Op>, login: Op)
    requires FreshIds(ops) && login.Login?
    ensures Step(Run(ops), login).1 <==> exists id :: Authentic(ops, login.loginEmail, login.loginPassword, id)
    ensures forall id :: Authentic(ops, login.loginEmail, login.loginPassword, id) ==>
              Step(Run(ops), login).0.tokens ==
              Issued(Run(ops).tokens, id, login.now + login.ttl, login.tokenId)
  {
    hide Run, Current, ToLower;
    RunIsDualIndexed(ops);
    var s := Run(ops);
    var email, password := login.loginEmail, login.loginPassword;
    forall id ensures Authentic(ops, email, password, id) <==>
                      FindByEmail(s.users, email).Ok? && FindByEmail(s.users, email).value.id == id
                      && Verify(password, FindByEmail(s.users, email).value.passwordHash) {
      RunMatchesHistory(ops, id);
      if id in s.users.byID {
        VerifyIsExact(password, Current(ops, id).value.password);
      }
    }
    if Step(s, login).1 {
      assert Authentic(ops, email, password, FindByEmail(s.users, email).value.id);
    }
  }

  /** What the caller of a login gets: without authentic credentials an error and nothing changed, otherwise a
      token that validates to the authentic user until the expiry it was returned with, and not after. */
  lemma LoginAnswer(ops: seq<Op>, login: Op)
    requires FreshIds(ops) && login.Login?
    ensures var (t, r) :=
              LoggedIn(Run(ops), login.loginEmail, login.loginPassword, login.now, login.ttl, login.tokenId);
            && t == Step(Run(ops), login).0 && t.users == Run(ops).users
            && (r.Ok? <==> exists id :: Authentic(ops, login.loginEmail, login.loginPassword, id))
            && (r.Err? ==> r.error == InvalidCredentials && t == Run(ops))
            && (r.Ok? ==> r.value.expiresAt == login.now + login.ttl)
            && forall id, reading | r.Ok? && Authentic(ops, login.loginEmail, login.loginPassword, id) ::
                 Validate(t.tokens, r.value.token, reading) ==
                 if reading <= r.value.expiresAt then Ok(id) else Err(TokenExpired)
  {
    hide Run, Authentic, TokenText, ToLower, Verify;
    LoginIffAuthentic(ops, login);
  }

  // ---------- Token lifetime ----------

  lemma StepKeepsToken(s: System, op: Op, token: string)
    requires token in s.tokens && (op.Login? ==> TokenText(op.tokenId) != token)
    ensures token in Step(s, op).0.tokens && Step(s, op).0.tokens[token] == s.tokens[token]
  {
    hide TokenText, ToLower, Verify, Hash;
  }

  lemma {:induction false} TokensPersist(ops: seq<Op>, k: nat, token: string)
    requires k <= |ops| && token in Run(ops[..k]).tokens
    requires forall i | k <= i < |ops| && ops[i].Login? :: TokenText(ops[i].tokenId) != token
    ensures token in Run(ops).tokens && Run(ops).tokens[token] == Run(ops[..k]).tokens[token]
  {
    hide Step, TokenText;
    if k == |ops| {
      assert ops[..k] == ops;
    } else {
      var n := |ops| - 1;
      assert ops[..n][..k] == ops[..k];
      TokensPersist(ops[..n], k, token);
      StepKeepsToken(Run(ops[..n]), ops[n], token);
    }
  }

  /** The token that the k-th call, a login, returned validates to the user it was issued for at every clock
      reading up to login time plus lifetime and is expired at every later one, whatever else has been called
      since. */
  lemma TokenLifetime(ops: seq<Op>, k: nat, id: UUID, reading: int)
    requires FreshIds(ops) && k < |ops| && ops[k].Login?
    requires Authentic(ops[..k], ops[k].loginEmail, ops[k].loginPassword, id)
    ensures var r := LoggedIn(Run(ops[..k]), ops[k].loginEmail, ops[k].loginPassword, ops[k].now, ops[k].ttl,
                              ops[k].tokenId).1;
            && r.Ok? && r.value.expiresAt == ops[k].now + ops[k].ttl
            && Validate(Run(ops).tokens, r.value.token, reading) ==
               if reading <= r.value.expiresAt then Ok(id) else Err(TokenExpired)
  {
    hide Run, Step, TokenText, Authentic, ToLower, Verify;
    var login, token := ops[k], TokenText(ops[k].tokenId);
    LoginIffAuthentic(ops[..k], login);
    LoginAnswer(ops[..k], login);
    assert Run(ops[..k + 1]) == Step(Run(ops[..k]), login).0 by {
      RunUnfolds(ops[..k + 1]);
      assert ops[..k + 1][..k] == ops[..k];
    }
    forall i | k < i < |ops| && ops[i].Login? ensures TokenText(ops[i].tokenId) != token {
      TokenTextInjective(ops[i].tokenId, login.tokenId);
    }
    TokensPersist(ops, k + 1, token);
  }

  lemma RunUnfolds(ops: seq<Op>)
    requires ops != []
    ensures Run(ops) == Step(Run(ops[..|ops| - 1]), ops[|ops| - 1]).0
  {
    hide Step;
  }
}
