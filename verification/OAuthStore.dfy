/**
 The OAuth provider's tables and the transactions over them.

 Each operation is given twice: as a function on the tables' value, saying which credentials it
 accepts and what it leaves behind, and as a method of `OAuthStore` that works statement by
 statement, deleting before it checks and rolling back when a check fails.

 Secrets stand for their digests (the digest is injective), and access tokens are records because
 only the server can sign them. Times are whole seconds.
 */
module OAuthStore {
  import opened Wrappers

  type UserId = int
  type ClientId = string
  type Subject = string
  type Secret = string

  const ACCESS_TOKEN_LIFETIME := 3600
  const REFRESH_TOKEN_LIFETIME := 30 * 24 * 3600
  const AUTHORIZATION_CODE_LIFETIME := 300
  const JWT_CLOCK_SKEW := 5

  datatype User = User(subject: Subject, tokenVersion: nat)

  /** An authorization code's row or a refresh token's row: both carry the approval they descend from. */
  datatype Credential = Credential(
    clientId: ClientId,
    userId: UserId,
    scopes: seq<string>,
    resource: Option<string>,
    tokenVersion: nat,
    grantVersion: nat,
    expiresAt: int)

  datatype AccessToken = AccessToken(
    subject: Subject,
    clientId: ClientId,
    tokenVersion: nat,
    grantVersion: nat,
    issuedAt: int,
    expiresAt: int)

  datatype TokenPair = TokenPair(access: AccessToken, refresh: Secret, scopes: seq<string>)

  datatype OAuthError = CredentialInvalid | AuthorizationRevoked | SessionRevoked | NotConnected

  type Pair = (UserId, ClientId)

  datatype Tables = Tables(
    users: map<UserId, User>,
    grants: map<Pair, nat>,
    codes: map<Secret, Credential>,
    refreshes: map<Secret, Credential>)

  // ----- what the tables accept -----

  /** The credential carries its account's and its grant's present versions. */
  predicate Current(t: Tables, c: Credential) {
    && c.userId in t.users
    && t.users[c.userId].tokenVersion == c.tokenVersion
    && (c.userId, c.clientId) in t.grants
    && t.grants[(c.userId, c.clientId)] == c.grantVersion
  }

  /** A stored secret that `clientId` may spend at `now`, its versions aside. */
  predicate Presentable(rows: map<Secret, Credential>, clientId: ClientId, secret: Secret, now: int) {
    secret in rows && rows[secret].clientId == clientId && now < rows[secret].expiresAt
  }

  predicate Redeemable(t: Tables, rows: map<Secret, Credential>, clientId: ClientId, secret: Secret, now: int) {
    Presentable(rows, clientId, secret, now) && Current(t, rows[secret])
  }

  predicate Unexpired(token: AccessToken, now: int) {
    now - JWT_CLOCK_SKEW < token.expiresAt && token.issuedAt <= now + JWT_CLOCK_SKEW
  }

  /** A token signed by this server opens the endpoint as account `userId`. */
  predicate AcceptedAs(t: Tables, token: AccessToken, now: int, userId: UserId) {
    && Unexpired(token, now)
    && userId in t.users
    && t.users[userId] == User(token.subject, token.tokenVersion)
    && (userId, token.clientId) in t.grants
    && t.grants[(userId, token.clientId)] == token.grantVersion
  }

  predicate Accepted(t: Tables, token: AccessToken, now: int) {
    exists userId :: userId in t.users && AcceptedAs(t, token, now, userId)
  }

  // ----- what each transaction leaves behind -----

  function WithoutPair(rows: map<Secret, Credential>, pair: Pair): map<Secret, Credential> {
    map s | s in rows && (rows[s].userId, rows[s].clientId) != pair :: rows[s]
  }

  function WithoutUser(rows: map<Secret, Credential>, userId: UserId): map<Secret, Credential> {
    map s | s in rows && rows[s].userId != userId :: rows[s]
  }

  /** The grant's version moves on and every stored credential of the pair goes. */
  function PairRevoked(t: Tables, pair: Pair): Tables
    requires pair in t.grants
  {
    t.(grants := t.grants[pair := t.grants[pair] + 1],
       codes := WithoutPair(t.codes, pair),
       refreshes := WithoutPair(t.refreshes, pair))
  }

  function GrantVersion(t: Tables, pair: Pair): nat {
    if pair in t.grants then t.grants[pair] else 0
  }

  predicate ApprovalAdmitted(t: Tables, userId: UserId, tokenVersion: nat) {
    userId in t.users && t.users[userId].tokenVersion == tokenVersion
  }

  function Approved(t: Tables, userId: UserId, tokenVersion: nat, clientId: ClientId,
                    scopes: seq<string>, resource: Option<string>, code: Secret, now: int): Tables
  {
    if !ApprovalAdmitted(t, userId, tokenVersion) then t else
      var version := GrantVersion(t, (userId, clientId));
      t.(grants := t.grants[(userId, clientId) := version],
         codes := t.codes[code := Credential(clientId, userId, scopes, resource, tokenVersion, version,
                                             now + AUTHORIZATION_CODE_LIFETIME)])
  }

  function TokensFor(t: Tables, c: Credential, scopes: seq<string>, refresh: Secret, now: int): TokenPair
    requires Current(t, c)
  {
    TokenPair(AccessToken(t.users[c.userId].subject, c.clientId, c.tokenVersion, c.grantVersion,
                          now, now + ACCESS_TOKEN_LIFETIME),
              refresh, scopes)
  }

  function Successor(c: Credential, scopes: seq<string>, now: int): Credential {
    c.(scopes := scopes, expiresAt := now + REFRESH_TOKEN_LIFETIME)
  }

  function RefusalOf(rows: map<Secret, Credential>, clientId: ClientId, secret: Secret, now: int): OAuthError {
    if Presentable(rows, clientId, secret, now) then AuthorizationRevoked else CredentialInvalid
  }

  function Exchanged(t: Tables, clientId: ClientId, code: Secret, refresh: Secret, now: int)
    : (Tables, Result<TokenPair, OAuthError>)
  {
    if !Redeemable(t, t.codes, clientId, code, now) then
      (t, Failure(RefusalOf(t.codes, clientId, code, now)))
    else
      var c := t.codes[code];
      (t.(codes := t.codes - {code}, refreshes := t.refreshes[refresh := Successor(c, c.scopes, now)]),
       Success(TokensFor(t, c, c.scopes, refresh, now)))
  }

  /** A client that names no scopes keeps the ones the refresh token had. */
  function ScopesOr(asked: seq<string>, had: seq<string>): seq<string> {
    if asked == [] then had else asked
  }

  function Rotated(t: Tables, clientId: ClientId, secret: Secret, scopes: seq<string>, refresh: Secret, now: int)
    : (Tables, Result<TokenPair, OAuthError>)
  {
    if !Redeemable(t, t.refreshes, clientId, secret, now) then
      (t, Failure(RefusalOf(t.refreshes, clientId, secret, now)))
    else
      var c := t.refreshes[secret];
      var kept := ScopesOr(scopes, c.scopes);
      (t.(refreshes := (t.refreshes - {secret})[refresh := Successor(c, kept, now)]),
       Success(TokensFor(t, c, kept, refresh, now)))
  }

  function Disconnected(t: Tables, userId: UserId, clientId: ClientId): Tables {
    if (userId, clientId) in t.grants then PairRevoked(t, (userId, clientId)) else t
  }

  /** A stored refresh token asked to be revoked; it may have expired since, but not been superseded. */
  predicate RefreshRevocable(t: Tables, clientId: ClientId, secret: Secret) {
    secret in t.refreshes && t.refreshes[secret].clientId == clientId && Current(t, t.refreshes[secret])
  }

  function RefreshRevoked(t: Tables, clientId: ClientId, secret: Secret): Tables {
    if RefreshRevocable(t, clientId, secret) then PairRevoked(t, (t.refreshes[secret].userId, clientId)) else t
  }

  /** The account the token was resolved to still has the token's subject and versions. */
  predicate AccessRevocable(t: Tables, token: AccessToken, userId: UserId) {
    && userId in t.users
    && t.users[userId] == User(token.subject, token.tokenVersion)
    && (userId, token.clientId) in t.grants
    && t.grants[(userId, token.clientId)] == token.grantVersion
  }

  function AccessRevoked(t: Tables, token: AccessToken, userId: UserId): Tables {
    if AccessRevocable(t, token, userId) then PairRevoked(t, (userId, token.clientId)) else t
  }

  function Bumped(t: Tables, userId: UserId): Tables {
    if userId in t.users then
      t.(users := t.users[userId := t.users[userId].(tokenVersion := t.users[userId].tokenVersion + 1)])
    else t
  }

  /** Every table that refers to the account follows it out. */
  function Deleted(t: Tables, userId: UserId): Tables {
    Tables(t.users - {userId},
           map p | p in t.grants && p.0 != userId :: t.grants[p],
           WithoutUser(t.codes, userId),
           WithoutUser(t.refreshes, userId))
  }

  /** `auth_subject` is a unique column. */
  ghost predicate UniqueSubjects(users: map<UserId, User>) {
    forall u, v :: u in users && v in users && users[u].subject == users[v].subject ==> u == v
  }

  /** Clients with a refresh token that is neither expired nor superseded. */
  function ConnectedClients(t: Tables, userId: UserId, now: int): set<ClientId> {
    set s | s in t.refreshes && t.refreshes[s].userId == userId && Current(t, t.refreshes[s])
        && now < t.refreshes[s].expiresAt
      :: t.refreshes[s].clientId
  }

  // ----- the transactions themselves -----

  class OAuthStore {
    var users: map<UserId, User>
    var grants: map<Pair, nat>
    var codes: map<Secret, Credential>
    var refreshes: map<Secret, Credential>

    constructor ()
      ensures Contents() == Tables(map[], map[], map[], map[])
    {
      users, grants, codes, refreshes := map[], map[], map[], map[];
    }

    function Contents(): Tables
      reads this
    {
      Tables(users, grants, codes, refreshes)
    }

    method Rollback(saved: Tables)
      modifies this
      ensures Contents() == saved
    {
      users, grants, codes, refreshes := saved.users, saved.grants, saved.codes, saved.refreshes;
    }

    /** Issue a one-time code, unless the approving session was revoked in the meantime. */
    method Approve(userId: UserId, tokenVersion: nat, clientId: ClientId, scopes: seq<string>,
                   resource: Option<string>, code: Secret, now: int)
      returns (r: Result<Secret, OAuthError>)
      modifies this
      ensures Contents() == Approved(old(Contents()), userId, tokenVersion, clientId, scopes, resource, code, now)
      ensures r == if ApprovalAdmitted(old(Contents()), userId, tokenVersion) then Success(code)
              else Failure(SessionRevoked)
    {
      var saved := Contents();
      var matched := 0;
      if userId in users && users[userId].tokenVersion == tokenVersion {
        matched := 1;
      }
      if matched == 0 {
        Rollback(saved);
        return Failure(SessionRevoked);
      }
      if (userId, clientId) !in grants {
        grants := grants[(userId, clientId) := 0];
      }
      codes := codes[code := Credential(clientId, userId, scopes, resource, tokenVersion, grants[(userId, clientId)],
                                        now + AUTHORIZATION_CODE_LIFETIME)];
      assert grants == old(grants)[(userId, clientId) := GrantVersion(old(Contents()), (userId, clientId))];
      return Success(code);
    }

    /** Sign an access token and store the next refresh token, or roll back to `saved`. */
    method IssueTokens(saved: Tables, credential: Credential, scopes: seq<string>, refresh: Secret, now: int)
      returns (r: Result<TokenPair, OAuthError>)
      requires users == saved.users && grants == saved.grants
      modifies this
      ensures !Current(saved, credential) ==> Contents() == saved && r == Failure(AuthorizationRevoked)
      ensures Current(saved, credential) ==>
                && Contents()
                    == old(Contents()).(refreshes := old(refreshes)[refresh := Successor(credential, scopes, now)])
                && r == Success(TokensFor(saved, credential, scopes, refresh, now))
    {
      var pair := (credential.userId, credential.clientId);
      if || credential.userId !in users
         || credential.tokenVersion != users[credential.userId].tokenVersion
         || pair !in grants
         || credential.grantVersion != grants[pair]
      {
        Rollback(saved);
        return Failure(AuthorizationRevoked);
      }
      var access := AccessToken(users[credential.userId].subject, credential.clientId,
                                users[credential.userId].tokenVersion,
                                credential.grantVersion, now, now + ACCESS_TOKEN_LIFETIME);
      refreshes := refreshes[refresh := Credential(credential.clientId, credential.userId, scopes, credential.resource,
                                                   credential.tokenVersion, credential.grantVersion,
                                                   now + REFRESH_TOKEN_LIFETIME)];
      return Success(TokenPair(access, refresh, scopes));
    }

    method ExchangeCode(clientId: ClientId, code: Secret, refresh: Secret, now: int)
      returns (r: Result<TokenPair, OAuthError>)
      modifies this
      ensures (Contents(), r) == Exchanged(old(Contents()), clientId, code, refresh, now)
    {
      var saved := Contents();
      var row := None;
      if code in codes && codes[code].clientId == clientId {
        row := Some(codes[code]);
        codes := codes - {code};
      }
      if row == None || row.value.expiresAt <= now {
        Rollback(saved);
        return Failure(CredentialInvalid);
      }
      r := IssueTokens(saved, row.value, row.value.scopes, refresh, now);
    }

    method RotateRefresh(clientId: ClientId, secret: Secret, scopes: seq<string>, refresh: Secret, now: int)
      returns (r: Result<TokenPair, OAuthError>)
      modifies this
      ensures (Contents(), r) == Rotated(old(Contents()), clientId, secret, scopes, refresh, now)
    {
      var saved := Contents();
      var row := None;
      if secret in refreshes && refreshes[secret].clientId == clientId {
        row := Some(refreshes[secret]);
        refreshes := refreshes - {secret};
      }
      if row == None || row.value.expiresAt <= now {
        Rollback(saved);
        return Failure(CredentialInvalid);
      }
      r := IssueTokens(saved, row.value, if scopes != [] then scopes else row.value.scopes, refresh, now);
    }

    method Disconnect(userId: UserId, clientId: ClientId) returns (r: Result<(), OAuthError>)
      modifies this
      ensures Contents() == Disconnected(old(Contents()), userId, clientId)
      ensures r.Success? <==> (userId, clientId) in old(grants)
    {
      if (userId, clientId) !in grants {
        return Failure(NotConnected);
      }
      grants := grants[(userId, clientId) := grants[(userId, clientId)] + 1];
      codes := WithoutPair(codes, (userId, clientId));
      refreshes := WithoutPair(refreshes, (userId, clientId));
      return Success(());
    }

    /** The account a signed access token opens, if any. */
    method ResolveAccess(token: AccessToken, now: int) returns (r: Option<UserId>)
      requires UniqueSubjects(users)
      ensures r.Some? <==> Accepted(Contents(), token, now)
      ensures r.Some? ==> AcceptedAs(Contents(), token, now, r.value)
    {
      if token.expiresAt <= now - JWT_CLOCK_SKEW || now + JWT_CLOCK_SKEW < token.issuedAt {
        return None;
      }
      if !exists u :: u in users && users[u].subject == token.subject {
        return None;
      }
      var userId :| userId in users && users[userId].subject == token.subject;
      if users[userId].tokenVersion != token.tokenVersion {
        return None;
      }
      if (userId, token.clientId) !in grants || grants[(userId, token.clientId)] != token.grantVersion {
        return None;
      }
      assert AcceptedAs(Contents(), token, now, userId);
      return Some(userId);
    }

    /** The conditional update that ends a revocation: `owner` and the versions were read earlier. */
    method RevokeIfUnchanged(saved: Tables, userId: UserId, owner: Subject, clientId: ClientId,
                             tokenVersion: nat, grantVersion: nat)
      requires users == saved.users && grants == saved.grants && UniqueSubjects(users)
      requires forall u :: u in users && users[u].subject == owner ==> u == userId
      modifies this
      ensures Contents() ==
              if && userId in saved.users && saved.users[userId] == User(owner, tokenVersion)
                 && (userId, clientId) in saved.grants && saved.grants[(userId, clientId)] == grantVersion
              then PairRevoked(old(Contents()), (userId, clientId))
              else saved
    {
      var holders := set u | u in users && users[u] == User(owner, tokenVersion);
      var matched := set p | p in grants && p.0 in holders && p.1 == clientId && grants[p] == grantVersion;
      if matched == {} {
        assert (userId, clientId) !in matched;
        Rollback(saved);
        return;
      }
      forall p | p in matched ensures p == (userId, clientId) {
        var (u, c) := p;
        assert u in holders && users[u].subject == owner;
      }
      ghost var p :| p in matched;
      assert p == (userId, clientId) && matched == {(userId, clientId)};
      grants := map p | p in grants :: if p in matched then grants[p] + 1 else grants[p];
      codes := WithoutPair(codes, (userId, clientId));
      refreshes := WithoutPair(refreshes, (userId, clientId));
    }

    method RevokeRefresh(clientId: ClientId, secret: Secret)
      requires UniqueSubjects(users)
      modifies this
      ensures Contents() == RefreshRevoked(old(Contents()), clientId, secret)
    {
      var saved := Contents();
      if secret !in refreshes || refreshes[secret].clientId != clientId {
        return;
      }
      var row := refreshes[secret];
      refreshes := refreshes - {secret};
      if row.userId !in users {
        Rollback(saved);
        return;
      }
      RevokeIfUnchanged(saved, row.userId, users[row.userId].subject, row.clientId, row.tokenVersion, row.grantVersion);
      assert WithoutPair(saved.refreshes - {secret}, (row.userId, clientId))
              == WithoutPair(saved.refreshes, (row.userId, clientId));
    }

    /** `userId` is the account `ResolveAccess` found, possibly before other transactions committed. */
    method RevokeAccess(token: AccessToken, userId: UserId)
      requires UniqueSubjects(users)
      requires forall u :: u in users && users[u].subject == token.subject ==> u == userId
      modifies this
      ensures Contents() == AccessRevoked(old(Contents()), token, userId)
    {
      RevokeIfUnchanged(Contents(), userId, token.subject, token.clientId, token.tokenVersion, token.grantVersion);
    }

    method BumpTokenVersion(userId: UserId)
      modifies this
      ensures Contents() == Bumped(old(Contents()), userId)
    {
      if userId in users {
        users := users[userId := User(users[userId].subject, users[userId].tokenVersion + 1)];
      }
    }

    method DeleteAccount(userId: UserId)
      modifies this
      ensures Contents() == Deleted(old(Contents()), userId)
    {
      users := users - {userId};
      grants := map p | p in grants && p.0 != userId :: grants[p];
      codes := WithoutUser(codes, userId);
      refreshes := WithoutUser(refreshes, userId);
    }
  }
}
