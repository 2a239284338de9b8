/** The in-memory user repository, token service and logic types, updated in place. */
module UserRepository {
  import opened Wrappers
  import opened Uuid
  import opened GoText
  import opened Users

  class FakeUserRepository {
    var byEmail: map<string, User>
    var byID: map<UUID, User>

    ghost function State(): Store
      reads this
    {
      Store(byEmail, byID)
    }

    /** Both indexes hold the same users under their own keys. */
    ghost predicate Valid()
      reads this
    {
      DualIndexed(State())
    }

    constructor ()
      ensures State() == EMPTY.users && Valid()
    {
      byEmail, byID := map[], map[];
    }

    method Create(email: string, displayName: string, passwordHash: string, callerId: UUID, newId: UUID)
      returns (r: Result<User, UserError>)
      modifies this
      ensures (State(), r) == Created(old(State()), email, displayName, passwordHash, callerId, newId)
      ensures old(Valid()) ==> (r.Ok? <==> forall id <- old(byID) :: ToLower(old(byID)[id].email) != ToLower(email))
      ensures old(Valid()) && newId !in old(byID) ==> Valid()
    {
      hide ToLower;
      if ToLower(email) in byEmail {
        return Err(EmailTaken);
      }
      var u := User(newId, email, displayName, passwordHash, 1, callerId, callerId);
      byEmail := byEmail[ToLower(u.email) := u];
      byID := byID[u.id := u];
      r := Ok(u);
    }

    method FindByID(id: UUID) returns (r: Result<User, UserError>)
      ensures r == Users.FindByID(State(), id)
      ensures Valid() && r.Ok? ==> r.value.id == id && Users.FindByEmail(State(), r.value.email) == r
    {
      hide ToLower;
      r := if id in byID then Ok(byID[id]) else Err(NotFound);
    }

    method FindByEmail(email: string) returns (r: Result<User, UserError>)
      ensures r == Users.FindByEmail(State(), email)
      ensures Valid() ==> (r.Ok? <==> exists id | id in byID :: ToLower(byID[id].email) == ToLower(email))
      ensures Valid() && r.Ok? ==> Users.FindByID(State(), r.value.id) == r
    {
      hide ToLower;
      if ToLower(email) !in byEmail {
        return Err(InvalidCredentials);
      }
      r := Ok(byEmail[ToLower(email)]);
    }

    method UpdateProfile(id: UUID, displayName: string, expectedVersion: int, callerId: UUID)
      returns (r: Result<User, UserError>)
      modifies this
      ensures (State(), r) == WithProfile(old(State()), id, displayName, expectedVersion, callerId)
      ensures old(Valid()) ==> Valid()
    {
      hide ToLower;
      if id !in byID {
        return Err(NotFound);
      }
      var u := byID[id];
      if u.version != expectedVersion {
        return Err(VersionConflict);
      }
      u := u.(displayName := displayName, version := u.version + 1, updatedBy := callerId);
      byID := byID[id := u];
      byEmail := byEmail[ToLower(u.email) := u];
      r := Ok(u);
    }

    method ChangePassword(id: UUID, newHash: string, expectedVersion: int, callerId: UUID)
      returns (r: Result<User, UserError>)
      modifies this
      ensures (State(), r) == WithPassword(old(State()), id, newHash, expectedVersion, callerId)
      ensures old(Valid()) ==> Valid()
    {
      hide ToLower;
      if id !in byID {
        return Err(NotFound);
      }
      var u := byID[id];
      if u.version != expectedVersion {
        return Err(VersionConflict);
      }
      u := u.(passwordHash := newHash, version := u.version + 1, updatedBy := callerId);
      byID := byID[id := u];
      byEmail := byEmail[ToLower(u.email) := u];
      r := Ok(u);
    }

    method Deactivate(id: UUID)
      modifies this
      ensures State() == Deactivated(old(State()), id)
      ensures old(Valid()) ==> Valid()
      ensures old(Valid()) && id in old(byID) ==> Users.FindByEmail(State(), old(byID)[id].email).Err?
    {
      hide ToLower;
      if id !in byID {
        return;
      }
      var u := byID[id];
      byID := byID - {id};
      byEmail := byEmail - {ToLower(u.email)};
    }
  }

  class FakeTokenService {
    var tokens: Tokens

    constructor ()
      ensures tokens == map[]
    {
      tokens := map[];
    }

    method Issue(userId: UUID, expiresAt: int, tokenId: UUID) returns (token: string)
      modifies this
      ensures token == TokenText(tokenId) && tokens == Issued(old(tokens), userId, expiresAt, tokenId)
    {
      token := "fake-" + Text(tokenId);
      tokens := tokens[token := TokenEntry(userId, expiresAt)];
    }

    method Validate(token: string, now: int) returns (r: Result<UUID, TokenError>)
      ensures r == Users.Validate(tokens, token, now)
    {
      if token !in tokens {
        return Err(TokenInvalid);
      }
      var entry := tokens[token];
      if now > entry.expiresAt {
        return Err(TokenExpired);
      }
      r := Ok(entry.userId);
    }
  }

  class UserLogic {
    const repo: FakeUserRepository

    constructor (repo: FakeUserRepository)
      ensures this.repo == repo
    {
      this.repo := repo;
    }

    method Register(email: string, displayName: string, password: string, callerId: UUID, newId: UUID)
      returns (r: Result<User, UserError>)
      modifies repo
      ensures (repo.State(), r) == Registered(old(repo.State()), email, displayName, password, callerId, newId)
      ensures old(repo.Valid()) && newId !in old(repo.byID) ==> repo.Valid()
    {
      if email == "" || !ValidDisplayName(displayName) || |password| < 8 {
        return Err(Invalid);
      }
      var hash := Hash(password);
      if hash.None? {
        return Err(Invalid);
      }
      r := repo.Create(email, displayName, hash.value, callerId, newId);
    }

    method UpdateProfile(id: UUID, displayName: string, expectedVersion: int, callerId: UUID)
      returns (r: Result<User, UserError>)
      modifies repo
      ensures (repo.State(), r) == ProfileUpdated(old(repo.State()), id, displayName, expectedVersion, callerId)
      ensures old(repo.Valid()) ==> repo.Valid()
    {
      if !ValidDisplayName(displayName) {
        return Err(Invalid);
      }
      r := repo.UpdateProfile(id, displayName, expectedVersion, callerId);
    }

    method ChangePassword(id: UUID, oldPassword: string, newPassword: string, expectedVersion: int, callerId: UUID)
      returns (r: Result<User, UserError>)
      modifies repo
      ensures (repo.State(), r) ==
              PasswordChanged(old(repo.State()), id, oldPassword, newPassword, expectedVersion, callerId)
      ensures old(repo.Valid()) ==> repo.Valid()
    {
      if oldPassword == "" || |newPassword| < 8 {
        return Err(Invalid);
      }
      var current := repo.FindByID(id);
      if current.Err? {
        return current;
      }
      if !Verify(oldPassword, current.value.passwordHash) {
        return Err(InvalidCredentials);
      }
      var newHash := Hash(newPassword);
      if newHash.None? {
        return Err(Invalid);
      }
      r := repo.ChangePassword(id, newHash.value, expectedVersion, callerId);
    }

    method Deactivate(id: UUID)
      modifies repo
      ensures repo.State() == Deactivated(old(repo.State()), id)
      ensures old(repo.Valid()) ==> repo.Valid()
    {
      repo.Deactivate(id);
    }
  }

  class LoginLogic {
    const repo: FakeUserRepository
    const tokens: FakeTokenService
    const tokenTTL: int

    constructor (repo: FakeUserRepository, tokens: FakeTokenService, tokenTTL: int)
      requires tokenTTL > 0
      ensures this.repo == repo && this.tokens == tokens && this.tokenTTL == tokenTTL
    {
      this.repo, this.tokens, this.tokenTTL := repo, tokens, tokenTTL;
    }

    ghost function State(): System
      reads repo, tokens
    {
      System(repo.State(), tokens.tokens)
    }

    /** now is the clock reading of the call. */
    method Login(email: string, password: string, now: int, tokenId: UUID) returns (r: Result<LoginResult, UserError>)
      modifies tokens
      ensures (State(), r) == LoggedIn(old(State()), email, password, now, tokenTTL, tokenId)
    {
      var found := repo.FindByEmail(email);
      if found.Err? {
        return Err(InvalidCredentials);
      }
      var u := found.value;
      if !Verify(password, u.passwordHash) {
        return Err(InvalidCredentials);
      }
      var expiresAt := now + tokenTTL;
      var token := tokens.Issue(u.id, expiresAt, tokenId);
      r := Ok(LoginResult(token, expiresAt));
    }
  }
}
