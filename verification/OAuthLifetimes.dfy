/**
 What redemptions leave usable, and for how long: a code for five minutes, a refresh token for thirty
 days, an access token for an hour and the clock skew, each until it is spent or its approval ends.
 And what the ending steps leave of the tables.
 */
module OAuthLifetimes {
  import opened OAuthRuns
  import opened OAuthStore
  import opened Wrappers

  const MINUTE := 60
  const HOUR := 60 * MINUTE
  const DAY := 24 * HOUR

  // ----- what the ending steps leave -----

  /** The grant whose version the step moves on. */
  ghost predicate HitsGrant(w: World, a: Action, pair: Pair) {
    match a
    case Disconnect(id, client) => pair == (id, client)
    case RevokeRefresh(client, secret) =>
      RefreshRevocable(w.tables, client, secret) && pair == (w.tables.refreshes[secret].userId, client)
    case RevokeAccess(token, id) => AccessRevocable(w.tables, token, id) && pair == (id, token.clientId)
    case _ => false
  }

  /** What is left of `rows` when those of ended approvals go. */
  ghost predicate LeavesTheRest(w: World, a: Action, rows: map<Secret, Credential>, rows': map<Secret, Credential>) {
    forall s :: s in rows' <==>
                s in rows && s in w.origin && w.origin[s] < |w.approvals|
                && (a.Bump? || !EndsApproval(w, a, w.approvals[w.origin[s]]))
  }

  lemma PairLeaves(w: World, a: Action, rows: map<Secret, Credential>, pair: Pair)
    requires RowsDescend(w, rows) && !a.Bump?
    requires forall ap :: ap in w.approvals ==> (EndsApproval(w, a, ap) <==> (ap.userId, ap.clientId) == pair)
    ensures LeavesTheRest(w, a, rows, WithoutPair(rows, pair))
  {
  }

  lemma UserLeaves(w: World, a: Action, rows: map<Secret, Credential>)
    requires RowsDescend(w, rows) && a.Delete?
    ensures LeavesTheRest(w, a, rows, WithoutUser(rows, a.userId))
  {
  }

  lemma AllLeft(w: World, a: Action, rows: map<Secret, Credential>)
    requires RowsDescend(w, rows)
    requires a.Bump? || forall s :: s in rows ==> !EndsApproval(w, a, w.approvals[w.origin[s]])
    ensures LeavesTheRest(w, a, rows, rows)
  {
  }

  /** A pair without a grant has no rows. */
  lemma NoGrantNoRows(w: World, rows: map<Secret, Credential>, a: Action)
    requires Inv(w) && RowsDescend(w, rows) && a.Disconnect? && (a.userId, a.clientId) !in w.tables.grants
    ensures LeavesTheRest(w, a, rows, rows)
  {
    forall s | s in rows
      ensures !EndsApproval(w, a, w.approvals[w.origin[s]])
    {
      var ap := w.approvals[w.origin[s]];
      assert Living(w.tables, ap) && (ap.userId, ap.clientId) in w.tables.grants;
    }
    AllLeft(w, a, rows);
  }

  lemma RevokingLeaves(w: World, a: Action, rows: map<Secret, Credential>, hits: bool, pair: Pair)
    requires RowsDescend(w, rows) && !a.Bump?
    requires forall ap :: ap in w.approvals ==> (EndsApproval(w, a, ap) <==> hits && (ap.userId, ap.clientId) == pair)
    ensures LeavesTheRest(w, a, rows, if hits then WithoutPair(rows, pair) else rows)
  {
    if hits {
      PairLeaves(w, a, rows, pair);
    } else {
      AllLeft(w, a, rows);
    }
  }

  lemma RowsLeft(w: World, a: Action, rows: map<Secret, Credential>)
    requires Inv(w) && Ends(a) && RowsDescend(w, rows)
    ensures LeavesTheRest(w, a, rows, RowsAfter(w, a, rows))
  {
    match a
    case Delete(id) => UserLeaves(w, a, rows);
    case Bump(id) => AllLeft(w, a, rows);
    case Disconnect(id, client) =>
      if (id, client) in w.tables.grants {
        PairLeaves(w, a, rows, (id, client));
      } else {
        NoGrantNoRows(w, rows, a);
      }
    case RevokeRefresh(client, secret) =>
      var hits := RefreshRevocable(w.tables, client, secret);
      RevokingLeaves(w, a, rows, hits, if hits then (w.tables.refreshes[secret].userId, client) else (0, client));
    case RevokeAccess(token, id) =>
      RevokingLeaves(w, a, rows, AccessRevocable(w.tables, token, id), (id, token.clientId));
  }

  /** The rows as an ending step filters them. */
  function RowsAfter(w: World, a: Action, rows: map<Secret, Credential>): map<Secret, Credential>
    requires Ends(a)
  {
    match a
    case Delete(id) => WithoutUser(rows, id)
    case Bump(_) => rows
    case Disconnect(id, client) => if (id, client) in w.tables.grants then WithoutPair(rows, (id, client)) else rows
    case RevokeRefresh(client, secret) =>
      if RefreshRevocable(w.tables, client, secret)
      then WithoutPair(rows, (w.tables.refreshes[secret].userId, client)) else rows
    case RevokeAccess(token, id) =>
      if AccessRevocable(w.tables, token, id) then WithoutPair(rows, (id, token.clientId)) else rows
  }

  lemma RowsFiltered(w: World, a: Action)
    requires Ends(a)
    ensures Next(w, a).tables.codes == RowsAfter(w, a, w.tables.codes)
    ensures Next(w, a).tables.refreshes == RowsAfter(w, a, w.tables.refreshes)
  {
  }

  /** A bump leaves every row; the other ending steps remove exactly the rows of the approvals they end. */
  lemma EndingRemovesRows(w: World, a: Action)
    requires Inv(w) && Ends(a)
    ensures LeavesTheRest(w, a, w.tables.codes, Next(w, a).tables.codes)
    ensures LeavesTheRest(w, a, w.tables.refreshes, Next(w, a).tables.refreshes)
  {
    RowsFiltered(w, a);
    RowsLeft(w, a, w.tables.codes);
    RowsLeft(w, a, w.tables.refreshes);
  }

  /** A bump moves its account's version on by one; deleting takes the account. */
  lemma EndingMovesAccounts(w: World, a: Action)
    requires Ends(a)
    ensures var users, users' := w.tables.users, Next(w, a).tables.users;
            && (forall u :: u in users' <==> u in users && a != Delete(u))
            && forall u :: u in users' ==>
                 && users'[u].subject == users[u].subject
                 && users'[u].tokenVersion == users[u].tokenVersion + if a == Bump(u) then 1 else 0
  {
  }

  /** Revoking moves its grant's version on by one; deleting takes the account's grants. */
  lemma EndingMovesGrants(w: World, a: Action)
    requires Ends(a)
    ensures var grants, grants' := w.tables.grants, Next(w, a).tables.grants;
            && (forall p :: p in grants' <==> p in grants && a != Delete(p.0))
            && (forall p :: p in grants' ==> grants'[p] == grants[p] + if HitsGrant(w, a, p) then 1 else 0)
  {
  }

  // ----- rows stay until they are spent or their approval ends -----

  ghost predicate Stored(rows: map<Secret, Credential>, secret: Secret, row: Credential) {
    secret in rows && rows[secret] == row
  }

  /** The approval a secret descends from is still in force, and the secret has not been redeemed. */
  ghost predicate Untouched(w: World, secret: Secret) {
    secret in w.origin && w.origin[secret] < |w.approvals|
    && secret !in w.redeemed && InForce(w.tables, w.approvals[w.origin[secret]])
  }

  lemma EndingSparesRow(w: World, a: Action, secret: Secret, row: Credential)
    requires Inv(w) && Ends(a) && Untouched(Next(w, a), secret)
    ensures Stored(w.tables.codes, secret, row) ==> Stored(Next(w, a).tables.codes, secret, row)
    ensures Stored(w.tables.refreshes, secret, row) ==> Stored(Next(w, a).tables.refreshes, secret, row)
  {
    EndingShrinks(w, a);
    EndingRemovesRows(w, a);
    if !a.Bump? {
      ForceAfterEnding(w, a, w.approvals[w.origin[secret]]);
    }
  }

  lemma RedeemingSparesRow(w: World, a: Action, secret: Secret, row: Credential)
    requires Inv(w) && Enabled(w, a) && (a.Exchange? || a.Rotate?) && Untouched(Next(w, a), secret)
    ensures Stored(w.tables.codes, secret, row) ==> Stored(Next(w, a).tables.codes, secret, row)
    ensures Stored(w.tables.refreshes, secret, row) ==> Stored(Next(w, a).tables.refreshes, secret, row)
  {
    RedemptionSpends(w, a);
    if Redeemable(w.tables, Rows(w, a), a.clientId, a.secret, w.now) {
      var c, m :| Descends(w, a.secret, c, m) && Next(w, a) == Spent(w, a.secret, c, a.refresh, m);
    }
  }

  lemma StepSparesRow(w: World, a: Action, secret: Secret, row: Credential)
    requires Inv(w) && Enabled(w, a) && Untouched(Next(w, a), secret)
    ensures Stored(w.tables.codes, secret, row) ==> Stored(Next(w, a).tables.codes, secret, row)
    ensures Stored(w.tables.refreshes, secret, row) ==> Stored(Next(w, a).tables.refreshes, secret, row)
  {
    if Ends(a) {
      EndingSparesRow(w, a, secret, row);
    } else if a.Exchange? || a.Rotate? {
      RedeemingSparesRow(w, a, secret, row);
    }
  }

  lemma UntouchedBefore(w: World, run: seq<Action>, secret: Secret)
    requires Inv(w) && Runs(w, run) && secret in w.origin && Untouched(After(w, run), secret)
    ensures Untouched(w, secret)
  {
    RunRemembers(w, run);
    ForceAfterRun(w, run, w.origin[secret]);
  }

  lemma {:induction false} RunSparesRow(w: World, run: seq<Action>, secret: Secret, row: Credential)
    requires Inv(w) && Runs(w, run) && Untouched(After(w, run), secret)
    ensures Stored(w.tables.codes, secret, row) ==> Stored(After(w, run).tables.codes, secret, row)
    ensures Stored(w.tables.refreshes, secret, row) ==> Stored(After(w, run).tables.refreshes, secret, row)
    decreases |run|
  {
    if run == [] {
    } else if Stored(w.tables.codes, secret, row) || Stored(w.tables.refreshes, secret, row) {
      StepKeepsInv(w, run[0]);
      StepRemembers(w, run[0]);
      UntouchedBefore(Next(w, run[0]), run[1..], secret);
      StepSparesRow(w, run[0], secret, row);
      RunSparesRow(Next(w, run[0]), run[1..], secret, row);
    }
  }

  /** A secret once handed out is never stored for anything else: a row under it is the first one. */
  lemma StepKeepsRow(w: World, a: Action, secret: Secret)
    requires Inv(w) && Enabled(w, a) && secret in w.origin
    ensures secret in Next(w, a).tables.codes ==> Stored(w.tables.codes, secret, Next(w, a).tables.codes[secret])
    ensures secret in Next(w, a).tables.refreshes ==>
              Stored(w.tables.refreshes, secret, Next(w, a).tables.refreshes[secret])
  {
    if Ends(a) {
      EndingShrinks(w, a);
    } else if a.Exchange? || a.Rotate? {
      RedemptionSpends(w, a);
      if Redeemable(w.tables, Rows(w, a), a.clientId, a.secret, w.now) {
        var c, m :| Descends(w, a.secret, c, m) && Next(w, a) == Spent(w, a.secret, c, a.refresh, m);
      }
    }
  }

  lemma {:induction false} RunKeepsRow(w: World, run: seq<Action>, secret: Secret)
    requires Inv(w) && Runs(w, run) && secret in w.origin
    ensures secret in After(w, run).tables.codes ==> Stored(w.tables.codes, secret, After(w, run).tables.codes[secret])
    ensures secret in After(w, run).tables.refreshes ==>
              Stored(w.tables.refreshes, secret, After(w, run).tables.refreshes[secret])
    decreases |run|
  {
    if run == [] {
    } else {
      StepKeepsInv(w, run[0]);
      StepRemembers(w, run[0]);
      StepKeepsRow(w, run[0], secret);
      RunKeepsRow(Next(w, run[0]), run[1..], secret);
    }
  }

  // ----- what a credential is worth later -----

  /** A stored code, after any run: it can be exchanged while unspent, unexpired and its approval in force. */
  lemma CodeLater(w: World, run: seq<Action>, code: Secret, client: ClientId, next: Secret, time: int)
    requires Inv(w) && Runs(w, run) && code in w.tables.codes
    ensures var row, w' := w.tables.codes[code], After(w, run);
            var r := Exchanged(w'.tables, client, code, next, time).1;
            && (r.Success? <==> client == row.clientId && time < row.expiresAt && Untouched(w', code))
            && (r.Success? ==> r.value.scopes == row.scopes)
  {
    var w' := After(w, run);
    RunKeepsInv(w, run);
    RunRemembers(w, run);
    RunKeepsRow(w, run, code);
    WorthExactly(w');
    if Untouched(w', code) {
      RunSparesRow(w, run, code, w.tables.codes[code]);
    }
  }

  /** The same for a stored refresh token, which grants the scopes asked for or else its own. */
  lemma RefreshLater(w: World, run: seq<Action>, secret: Secret, client: ClientId, scopes: seq<string>, next: Secret,
                     time: int)
    requires Inv(w) && Runs(w, run) && secret in w.tables.refreshes
    ensures var row, w' := w.tables.refreshes[secret], After(w, run);
            var r := Rotated(w'.tables, client, secret, scopes, next, time).1;
            && (r.Success? <==> client == row.clientId && time < row.expiresAt && Untouched(w', secret))
            && (r.Success? ==> r.value.scopes == if scopes != [] then scopes else row.scopes)
  {
    var w' := After(w, run);
    RunKeepsInv(w, run);
    RunRemembers(w, run);
    RunKeepsRow(w, run, secret);
    WorthExactly(w');
    if Untouched(w', secret) {
      RunSparesRow(w, run, secret, w.tables.refreshes[secret]);
    }
  }

  // ----- main theorems -----

  /** The code of an approval opens exactly that approval: at once, for five minutes, once, for its client. */
  lemma ApprovalIsUsable(w: World, a: Action, later: seq<Action>, client: ClientId, next: Secret, time: int)
    requires Inv(w) && Enabled(w, a) && a.Approve?
    requires a.userId in w.tables.users && w.tables.users[a.userId].tokenVersion == a.tokenVersion
    requires Runs(Next(w, a), later)
    ensures var w1, i := Next(w, a), |w.approvals|;
            && |w1.approvals| == i + 1 && a.code in w1.origin && w1.origin[a.code] == i
            && InForce(w1.tables, w1.approvals[i])
            && w1.approvals[i].userId == a.userId && w1.approvals[i].clientId == a.clientId
            && w1.approvals[i].grantVersion
               == (if (a.userId, a.clientId) in w.tables.grants then w.tables.grants[(a.userId, a.clientId)] else 0)
    ensures a.code in Next(w, a).tables.codes && Next(w, a).tables.codes[a.code].resource == a.resource
    ensures var w1, w2 := Next(w, a), After(Next(w, a), later);
            var r := Exchanged(w2.tables, client, a.code, next, time).1;
            && (r.Success? <==>
                  && client == a.clientId && time < w.now + 5 * MINUTE
                  && a.code !in w2.redeemed && InForce(w2.tables, w1.approvals[|w.approvals|]))
            && (r.Success? ==> r.value.scopes == a.scopes)
  {
    var w1 := Next(w, a);
    StepKeepsInv(w, a);
    RunRemembers(w1, later);
    CodeLater(w1, later, a.code, client, next, time);
  }

  function Outcome(w: World, a: Action): Result<TokenPair, OAuthError>
    requires a.Exchange? || a.Rotate?
  {
    if a.Exchange? then Exchanged(w.tables, a.clientId, a.secret, a.refresh, w.now).1
    else Rotated(w.tables, a.clientId, a.secret, a.scopes, a.refresh, w.now).1
  }

  /** A step counts as redeeming a secret exactly when it spends that secret successfully. */
  lemma RedeemsExactly(w: World, a: Action, secret: Secret)
    ensures Redeems(w, a, secret) <==> (a.Exchange? || a.Rotate?) && a.secret == secret && Outcome(w, a).Success?
  {
  }

  /** A successful redemption at the world's clock, and the approval it was made under. */
  ghost predicate Redeemed(w: World, a: Action, ap: Approval) {
    && Inv(w) && Enabled(w, a) && (a.Exchange? || a.Rotate?) && Outcome(w, a).Success?
    && a.secret in w.origin && w.origin[a.secret] < |w.approvals| && w.approvals[w.origin[a.secret]] == ap
  }

  lemma RedemptionIsStored(w: World, a: Action, ap: Approval)
    requires Redeemed(w, a, ap)
    ensures a.secret in Rows(w, a) && Carries(Rows(w, a)[a.secret], ap) && ap.clientId == a.clientId
    ensures var w1, had := Next(w, a), Rows(w, a)[a.secret];
            && a.refresh in w1.origin && w1.origin[a.refresh] == w.origin[a.secret]
            && w1.approvals == w.approvals && InForce(w1.tables, ap)
            && Stored(w1.tables.refreshes, a.refresh,
                      had.(scopes := Outcome(w, a).value.scopes, expiresAt := w.now + 30 * DAY))
  {
  }

  /** The scopes granted are those asked for, or else those held. */
  lemma GrantedScopes(w: World, a: Action, ap: Approval)
    requires Redeemed(w, a, ap)
    ensures a.secret in Rows(w, a)
    ensures Outcome(w, a).value.refresh == a.refresh
    ensures Outcome(w, a).value.scopes ==
            if a.Rotate? && a.scopes != [] then a.scopes else Rows(w, a)[a.secret].scopes
  {
  }

  /**
   The refresh token of a successful redemption, after any run: it rotates exactly for the same client,
   within thirty days of the redemption, while not spent and the approval in force.
   */
  lemma RefreshIsUsable(w: World, a: Action, ap: Approval, later: seq<Action>, client: ClientId, scopes: seq<string>,
                        next: Secret, time: int)
    requires Redeemed(w, a, ap) && Runs(Next(w, a), later)
    ensures InForce(Next(w, a).tables, ap)
    ensures a.secret in Rows(w, a) && a.refresh in Next(w, a).tables.refreshes
            && Next(w, a).tables.refreshes[a.refresh].resource == Rows(w, a)[a.secret].resource
    ensures var w2 := After(Next(w, a), later);
            var r := Rotated(w2.tables, client, a.refresh, scopes, next, time).1;
            && (r.Success? <==>
                  && client == a.clientId && time < w.now + 30 * DAY
                  && a.refresh !in w2.redeemed && InForce(w2.tables, ap))
            && (r.Success? ==> r.value.scopes == if scopes != [] then scopes else Outcome(w, a).value.scopes)
  {
    RedemptionIsStored(w, a, ap);
    StepKeepsInv(w, a);
    RunRemembers(Next(w, a), later);
    RefreshLater(Next(w, a), later, a.refresh, client, scopes, next, time);
  }

  /** The access token carries the approval it was signed under. */
  ghost predicate SignedFor(token: AccessToken, ap: Approval) {
    && token.subject == ap.subject && token.clientId == ap.clientId
    && token.tokenVersion == ap.tokenVersion && token.grantVersion == ap.grantVersion
  }

  lemma AccessIsSigned(w: World, a: Action, ap: Approval)
    requires Redeemed(w, a, ap)
    ensures var token := Outcome(w, a).value.access;
            SignedFor(token, ap) && token.issuedAt == w.now && token.expiresAt == w.now + HOUR
    ensures Inv(Next(w, a)) && Next(w, a).approvals == w.approvals
  {
    RedemptionIsStored(w, a, ap);
    StepKeepsInv(w, a);
  }

  lemma KnownLater(w: World, run: seq<Action>, i: nat)
    requires Inv(w) && Runs(w, run) && i < |w.approvals|
    ensures var w', ap := After(w, run), w.approvals[i];
            Inv(w') && ap.subject in w'.accounts && w'.accounts[ap.subject] == ap.userId
  {
    RunKeepsInv(w, run);
    RunRemembers(w, run);
    assert After(w, run).approvals[i] == w.approvals[i];
  }

  lemma WorthOfToken(w: World, ap: Approval, token: AccessToken, userId: UserId, time: int)
    requires Inv(w) && SignedFor(token, ap) && ap.subject in w.accounts && w.accounts[ap.subject] == ap.userId
    ensures AcceptedAs(w.tables, token, time, userId) <==>
            userId == ap.userId && token.issuedAt - 5 <= time < token.expiresAt + 5 && InForce(w.tables, ap)
  {
  }

  /** Its access token opens the endpoint, as the approving account, for an hour and the skew either way. */
  lemma AccessIsUsable(w: World, a: Action, ap: Approval, later: seq<Action>, userId: UserId, time: int)
    requires Redeemed(w, a, ap) && Runs(Next(w, a), later)
    ensures var w2 := After(Next(w, a), later);
            AcceptedAs(w2.tables, Outcome(w, a).value.access, time, userId) <==>
            userId == ap.userId && w.now - 5 <= time < w.now + HOUR + 5 && InForce(w2.tables, ap)
  {
    var w1, token := Next(w, a), Outcome(w, a).value.access;
    var w2 := After(w1, later);
    AccessIsSigned(w, a, ap);
    KnownLater(w1, later, w.origin[a.secret]);
    WorthOfToken(w2, ap, token, userId, time);
  }

  // ----- refusals -----

  /** A refused code is invalid when it is not stored for the client or has expired, else its approval has ended. */
  lemma RefusalNamesCause(w: World, client: ClientId, secret: Secret, scopes: seq<string>, next: Secret, time: int)
    requires Inv(w)
    ensures var r := Exchanged(w.tables, client, secret, next, time).1;
            r.Failure? ==> r.error == if secret in w.tables.codes && w.tables.codes[secret].clientId == client
                                         && time < w.tables.codes[secret].expiresAt
                                      then AuthorizationRevoked else CredentialInvalid
    ensures var r := Rotated(w.tables, client, secret, scopes, next, time).1;
            r.Failure? ==> r.error == if secret in w.tables.refreshes && w.tables.refreshes[secret].clientId == client
                                         && time < w.tables.refreshes[secret].expiresAt
                                      then AuthorizationRevoked else CredentialInvalid
  {
  }
}
