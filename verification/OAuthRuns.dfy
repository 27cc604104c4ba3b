/**
 Runs of the OAuth protocol: any interleaving of sign-ups, approvals, redemptions, revocations,
 token-version bumps, account deletions (numeric ids are reused) and clock readings.

 A `World` is the tables, the clock, and a record of the past that no operation reads: who approved
 what, which approval each secret and each signed access token descends from, and which secrets
 have been redeemed.
 */
module OAuthRuns {
  import opened Wrappers
  import opened OAuthStore

  /** What a consent was given for, with the two versions in force at that moment. */
  datatype Approval = Approval(subject: Subject, userId: UserId, clientId: ClientId, tokenVersion: nat,
                               grantVersion: nat)

  datatype Minted = Minted(token: AccessToken, approval: nat)

  datatype World = World(
    tables: Tables,
    now: int,
    accounts: map<Subject, UserId>,   // every account there has ever been
    approvals: seq<Approval>,
    origin: map<Secret, nat>,         // every secret ever handed out, and the approval it descends from
    minted: set<Minted>,
    redeemed: set<Secret>)

  /** One committed transaction, or a clock reading. */
  datatype Action =
    | Register(newId: UserId, subject: Subject)
    | Delete(userId: UserId)
    | Bump(userId: UserId)
    | Approve(userId: UserId, tokenVersion: nat, clientId: ClientId, scopes: seq<string>,
              resource: Option<string>, code: Secret)
    | Exchange(clientId: ClientId, secret: Secret, refresh: Secret)
    | Rotate(clientId: ClientId, secret: Secret, scopes: seq<string>, refresh: Secret)
    | Disconnect(userId: UserId, clientId: ClientId)
    | RevokeRefresh(clientId: ClientId, secret: Secret)
    | RevokeAccess(token: AccessToken, userId: UserId)
    | ReadClock(time: int)

  const START := World(Tables(map[], map[], map[], map[]), 0, map[], [], map[], {}, {})

  /**
   New secrets and subjects are fresh, a numeric id is only given to one account at a time, and an
   access token being revoked was resolved to its account at some earlier moment.
   */
  ghost predicate Enabled(w: World, a: Action) {
    match a
    case Register(id, s) => id !in w.tables.users && s !in w.accounts
    case Approve(_, _, _, _, _, code) => code !in w.origin
    case Exchange(_, _, refresh) => refresh !in w.origin
    case Rotate(_, _, _, refresh) => refresh !in w.origin
    case RevokeAccess(token, id) => token.subject in w.accounts && w.accounts[token.subject] == id
    case _ => true
  }

  function Redemption(w: World, secret: Secret, after: (Tables, Result<TokenPair, OAuthError>)): World {
    if after.1.Failure? || secret !in w.origin then w.(tables := after.0) else
      var i := w.origin[secret];
      w.(tables := after.0,
         origin := w.origin[after.1.value.refresh := i],
         minted := w.minted + {Minted(after.1.value.access, i)},
         redeemed := w.redeemed + {secret})
  }

  function Next(w: World, a: Action): World {
    var t := w.tables;
    match a
    case Register(id, s) => w.(tables := t.(users := t.users[id := User(s, 0)]), accounts := w.accounts[s := id])
    case Delete(id) => w.(tables := Deleted(t, id))
    case Bump(id) => w.(tables := Bumped(t, id))
    case Approve(id, tv, client, scopes, resource, code) =>
      if !ApprovalAdmitted(t, id, tv) then w else
        w.(tables := Approved(t, id, tv, client, scopes, resource, code, w.now),
           approvals := w.approvals + [Approval(t.users[id].subject, id, client, tv, GrantVersion(t, (id, client)))],
           origin := w.origin[code := |w.approvals|])
    case Exchange(client, code, refresh) => Redemption(w, code, Exchanged(t, client, code, refresh, w.now))
    case Rotate(client, secret, scopes, refresh) =>
      Redemption(w, secret, Rotated(t, client, secret, scopes, refresh, w.now))
    case Disconnect(id, client) => w.(tables := Disconnected(t, id, client))
    case RevokeRefresh(client, secret) => w.(tables := RefreshRevoked(t, client, secret))
    case RevokeAccess(token, id) => w.(tables := AccessRevoked(t, token, id))
    case ReadClock(time) => w.(now := time)
  }

  ghost predicate Runs(w: World, run: seq<Action>)
    decreases |run|
  {
    run != [] ==> (Enabled(w, run[0]) && Runs(Next(w, run[0]), run[1..]))
  }

  ghost function After(w: World, run: seq<Action>): World
    decreases |run|
  {
    if run == [] then w else After(Next(w, run[0]), run[1..])
  }

  // ----- what every step keeps -----

  ghost predicate Living(t: Tables, a: Approval) {
    a.userId in t.users && t.users[a.userId].subject == a.subject
  }

  /** The account is still there and neither of the two versions has moved. */
  ghost predicate InForce(t: Tables, a: Approval) {
    && Living(t, a)
    && t.users[a.userId].tokenVersion == a.tokenVersion
    && (a.userId, a.clientId) in t.grants
    && t.grants[(a.userId, a.clientId)] == a.grantVersion
  }

  ghost predicate Carries(c: Credential, a: Approval) {
    c.userId == a.userId && c.clientId == a.clientId && c.tokenVersion == a.tokenVersion
        && c.grantVersion == a.grantVersion
  }

  ghost predicate AccountsKnown(w: World) {
    && (forall u :: u in w.tables.users ==>
          w.tables.users[u].subject in w.accounts && w.accounts[w.tables.users[u].subject] == u)
    && (forall p :: p in w.tables.grants ==> p.0 in w.tables.users)
  }

  /** Versions only grow while the account lives, and its subject names it for good. */
  ghost predicate ApprovalsPast(w: World) {
    forall i {:trigger w.approvals[i]} :: 0 <= i < |w.approvals| ==>
      var a := w.approvals[i];
      && a.subject in w.accounts && w.accounts[a.subject] == a.userId
      && (Living(w.tables, a) ==>
            && a.tokenVersion <= w.tables.users[a.userId].tokenVersion
            && (a.userId, a.clientId) in w.tables.grants
            && a.grantVersion <= w.tables.grants[(a.userId, a.clientId)])
  }

  ghost predicate RowsDescend(w: World, rows: map<Secret, Credential>) {
    forall s :: s in rows ==>
      && s in w.origin && w.origin[s] < |w.approvals| && s !in w.redeemed
      && Carries(rows[s], w.approvals[w.origin[s]]) && Living(w.tables, w.approvals[w.origin[s]])
  }

  ghost predicate TokensDescend(w: World) {
    forall m :: m in w.minted ==>
      && m.approval < |w.approvals|
      && var a := w.approvals[m.approval];
         m.token.subject == a.subject && m.token.clientId == a.clientId
         && m.token.tokenVersion == a.tokenVersion && m.token.grantVersion == a.grantVersion
  }

  function Live(t: Tables): set<Secret> {
    t.codes.Keys + t.refreshes.Keys
  }

  /** No approval has two credentials that could still be spent. */
  ghost predicate OneCredentialEach(w: World) {
    && w.tables.codes.Keys !! w.tables.refreshes.Keys
    && forall r, s | r in Live(w.tables) && s in Live(w.tables) && r in w.origin && s in w.origin ::
         w.origin[r] == w.origin[s] ==> r == s
  }

  ghost predicate Inv(w: World) {
    && AccountsKnown(w)
    && ApprovalsPast(w)
    && RowsDescend(w, w.tables.codes)
    && RowsDescend(w, w.tables.refreshes)
    && TokensDescend(w)
    && (forall s :: s in w.origin ==> w.origin[s] < |w.approvals|)
    && w.redeemed <= w.origin.Keys
    && OneCredentialEach(w)
  }

  /** Rows only go, versions only grow, and an account takes its grants and rows with it. */
  ghost predicate Shrinks(t: Tables, t': Tables) {
    && (forall u :: u in t'.users ==>
          && u in t.users && t'.users[u].subject == t.users[u].subject
          && t.users[u].tokenVersion <= t'.users[u].tokenVersion)
    && (forall p :: p in t'.grants <==> p in t.grants && p.0 in t'.users)
    && (forall p :: p in t'.grants ==> t.grants[p] <= t'.grants[p])
    && (forall s :: s in t'.codes ==> s in t.codes && t'.codes[s] == t.codes[s] && t'.codes[s].userId in t'.users)
    && (forall s :: s in t'.refreshes ==>
          s in t.refreshes && t'.refreshes[s] == t.refreshes[s] && t'.refreshes[s].userId in t'.users)
  }

  predicate Ends(a: Action) {
    a.Delete? || a.Bump? || a.Disconnect? || a.RevokeRefresh? || a.RevokeAccess?
  }

  /** Foreign keys: grants and credentials belong to accounts that exist. */
  ghost predicate Owned(t: Tables) {
    && (forall p :: p in t.grants ==> p.0 in t.users)
    && (forall s :: s in t.codes ==> t.codes[s].userId in t.users)
    && (forall s :: s in t.refreshes ==> t.refreshes[s].userId in t.users)
  }

  lemma RevokingShrinks(t: Tables, pair: Pair)
    requires Owned(t) && pair in t.grants
    ensures Shrinks(t, PairRevoked(t, pair))
  {
  }

  lemma DeletingShrinks(t: Tables, userId: UserId)
    requires Owned(t)
    ensures Shrinks(t, Deleted(t, userId)) && Shrinks(t, Bumped(t, userId)) && Shrinks(t, t)
  {
  }

  lemma EndingShrinks(w: World, a: Action)
    requires Inv(w) && Ends(a)
    ensures Shrinks(w.tables, Next(w, a).tables)
  {
    var t := w.tables;
    assert Owned(t);
    match a
    case Delete(id) => DeletingShrinks(t, id);
    case Bump(id) => DeletingShrinks(t, id);
    case Disconnect(id, client) =>
      if (id, client) in t.grants { RevokingShrinks(t, (id, client)); } else { DeletingShrinks(t, 0); }
    case RevokeRefresh(client, secret) =>
      if RefreshRevocable(t, client, secret) {
        RevokingShrinks(t, (t.refreshes[secret].userId, client));
      } else {
        DeletingShrinks(t, 0);
      }
    case RevokeAccess(token, id) =>
      if AccessRevocable(t, token, id) { RevokingShrinks(t, (id, token.clientId)); } else { DeletingShrinks(t, 0); }
  }

  lemma ShrinkingKeepsInv(w: World, t': Tables)
    requires Inv(w) && Shrinks(w.tables, t')
    ensures Inv(w.(tables := t'))
  {
    var w' := w.(tables := t');
    forall i | 0 <= i < |w.approvals| && Living(t', w.approvals[i])
      ensures Living(w.tables, w.approvals[i])
    {
    }
    assert ApprovalsPast(w');
    assert Live(t') <= Live(w.tables);
  }

  lemma RegisterKeepsInv(w: World, a: Action)
    requires Inv(w) && Enabled(w, a) && a.Register?
    ensures Inv(Next(w, a))
  {
  }

  lemma ApproveKeepsInv(w: World, a: Action)
    requires Inv(w) && Enabled(w, a) && a.Approve?
    ensures Inv(Next(w, a))
  {
    if ApprovalAdmitted(w.tables, a.userId, a.tokenVersion) {
      var w' := Next(w, a);
      assert AccountsKnown(w');
      ApprovalIsRecorded(w, a);
      ApprovedRowsDescend(w, a);
      assert TokensDescend(w');
      assert OneCredentialEach(w');
    }
  }

  lemma ApprovedRowsDescend(w: World, a: Action)
    requires Inv(w) && Enabled(w, a) && a.Approve? && ApprovalAdmitted(w.tables, a.userId, a.tokenVersion)
    ensures var w' := Next(w, a); RowsDescend(w', w'.tables.codes) && RowsDescend(w', w'.tables.refreshes)
  {
    var w' := Next(w, a);
    forall s | s in w'.tables.codes
      ensures && s in w'.origin && w'.origin[s] < |w'.approvals| && s !in w'.redeemed
              && Carries(w'.tables.codes[s], w'.approvals[w'.origin[s]])
              && Living(w'.tables, w'.approvals[w'.origin[s]])
    {
      assert s != a.code ==> s in w.tables.codes && w'.origin[s] == w.origin[s];
    }
  }

  lemma ApprovalIsRecorded(w: World, a: Action)
    requires Inv(w) && Enabled(w, a) && a.Approve? && ApprovalAdmitted(w.tables, a.userId, a.tokenVersion)
    ensures ApprovalsPast(Next(w, a))
  {
    var w' := Next(w, a);
    forall i | 0 <= i < |w.approvals|
      ensures Living(w'.tables, w.approvals[i]) == Living(w.tables, w.approvals[i])
    {
    }
  }

  /** Spending a live secret puts the next refresh token, of the same approval, in its place. */
  function Spent(w: World, secret: Secret, c: Credential, refresh: Secret, m: Minted): World
    requires secret in w.origin
  {
    w.(tables := w.tables.(codes := w.tables.codes - {secret},
                           refreshes := (w.tables.refreshes - {secret})[refresh := c]),
       origin := w.origin[refresh := w.origin[secret]],
       minted := w.minted + {m},
       redeemed := w.redeemed + {secret})
  }

  /** The spent secret's successor and the signed token belong to the same approval. */
  ghost predicate Descends(w: World, secret: Secret, c: Credential, m: Minted)
    requires Inv(w) && secret in Live(w.tables)
  {
    var i := w.origin[secret];
    var a := w.approvals[i];
    && Carries(c, a) && Living(w.tables, a) && m.approval == i
    && m.token.subject == a.subject && m.token.clientId == a.clientId
    && m.token.tokenVersion == a.tokenVersion && m.token.grantVersion == a.grantVersion
  }

  lemma SpendingKeepsThePast(w: World, secret: Secret, c: Credential, refresh: Secret, m: Minted)
    requires Inv(w) && refresh !in w.origin && secret in Live(w.tables) && Descends(w, secret, c, m)
    ensures var w' := Spent(w, secret, c, refresh, m);
            AccountsKnown(w') && ApprovalsPast(w') && TokensDescend(w')
  {
    var w' := Spent(w, secret, c, refresh, m);
    assert w'.tables.users == w.tables.users && w'.tables.grants == w.tables.grants;
    forall i | 0 <= i < |w.approvals|
      ensures Living(w'.tables, w.approvals[i]) == Living(w.tables, w.approvals[i])
    {
    }
  }

  lemma SpendingKeepsRows(w: World, secret: Secret, c: Credential, refresh: Secret, m: Minted)
    requires Inv(w) && refresh !in w.origin && secret in Live(w.tables) && Descends(w, secret, c, m)
    ensures var w' := Spent(w, secret, c, refresh, m);
            RowsDescend(w', w'.tables.codes) && RowsDescend(w', w'.tables.refreshes)
  {
    var w' := Spent(w, secret, c, refresh, m);
    forall s | s in w'.tables.refreshes
      ensures s in w'.origin && w'.origin[s] < |w'.approvals| && s !in w'.redeemed
      ensures Carries(w'.tables.refreshes[s], w'.approvals[w'.origin[s]])
              && Living(w'.tables, w'.approvals[w'.origin[s]])
    {
      if s != refresh {
        assert s in w.tables.refreshes;
      } else {
        assert refresh !in w.redeemed;
      }
    }
  }

  lemma SpendingKeepsOneEach(w: World, secret: Secret, c: Credential, refresh: Secret, m: Minted)
    requires Inv(w) && refresh !in w.origin && secret in Live(w.tables)
    ensures OneCredentialEach(Spent(w, secret, c, refresh, m))
  {
    var w' := Spent(w, secret, c, refresh, m);
    assert Live(w'.tables) == Live(w.tables) - {secret} + {refresh};
    assert forall s :: s in Live(w.tables) && s != secret ==> s in w.origin && w.origin[s] != w.origin[secret];
  }

  lemma SpendingKeepsInv(w: World, secret: Secret, c: Credential, refresh: Secret, m: Minted)
    requires Inv(w) && refresh !in w.origin && secret in Live(w.tables) && Descends(w, secret, c, m)
    ensures Inv(Spent(w, secret, c, refresh, m))
  {
    SpendingKeepsThePast(w, secret, c, refresh, m);
    SpendingKeepsRows(w, secret, c, refresh, m);
    SpendingKeepsOneEach(w, secret, c, refresh, m);
  }

  function Rows(w: World, a: Action): map<Secret, Credential> {
    if a.Exchange? then w.tables.codes else w.tables.refreshes
  }

  /** A redemption either changes nothing at all, or spends its secret. */
  lemma RedemptionSpends(w: World, a: Action)
    requires Inv(w) && (a.Exchange? || a.Rotate?)
    ensures !Redeemable(w.tables, Rows(w, a), a.clientId, a.secret, w.now) ==> Next(w, a) == w
    ensures Redeemable(w.tables, Rows(w, a), a.clientId, a.secret, w.now) ==>
              exists c, m :: Descends(w, a.secret, c, m) && Next(w, a) == Spent(w, a.secret, c, a.refresh, m)
  {
    var t, rows := w.tables, Rows(w, a);
    if Redeemable(t, rows, a.clientId, a.secret, w.now) {
      var c := rows[a.secret];
      var kept := if a.Exchange? then c.scopes else ScopesOr(a.scopes, c.scopes);
      var m := Minted(TokensFor(t, c, kept, a.refresh, w.now).access, w.origin[a.secret]);
      assert a.Exchange? ==> t.refreshes - {a.secret} == t.refreshes;
      assert a.Rotate? ==> t.codes - {a.secret} == t.codes;
      assert Descends(w, a.secret, Successor(c, kept, w.now), m);
      assert Next(w, a) == Spent(w, a.secret, Successor(c, kept, w.now), a.refresh, m);
    }
  }

  lemma RedemptionKeepsInv(w: World, a: Action)
    requires Inv(w) && Enabled(w, a) && (a.Exchange? || a.Rotate?)
    ensures Inv(Next(w, a))
  {
    RedemptionSpends(w, a);
    if Redeemable(w.tables, Rows(w, a), a.clientId, a.secret, w.now) {
      var c, m :| Descends(w, a.secret, c, m) && Next(w, a) == Spent(w, a.secret, c, a.refresh, m);
      SpendingKeepsInv(w, a.secret, c, a.refresh, m);
    }
  }

  lemma StepKeepsInv(w: World, a: Action)
    requires Inv(w) && Enabled(w, a)
    ensures Inv(Next(w, a))
  {
    if Ends(a) {
      EndingShrinks(w, a);
      ShrinkingKeepsInv(w, Next(w, a).tables);
    } else if a.Register? {
      RegisterKeepsInv(w, a);
    } else if a.Approve? {
      ApproveKeepsInv(w, a);
    } else if !a.ReadClock? {
      RedemptionKeepsInv(w, a);
    }
  }

  lemma {:induction false} RunKeepsInv(w: World, run: seq<Action>)
    requires Inv(w) && Runs(w, run)
    ensures Inv(After(w, run))
    decreases |run|
  {
    if run == [] {
    } else {
      StepKeepsInv(w, run[0]);
      RunKeepsInv(Next(w, run[0]), run[1..]);
    }
  }

  // ----- the past is never rewritten -----

  ghost predicate Remembers(w: World, w': World) {
    && w.approvals <= w'.approvals
    && (forall s :: s in w.origin ==> s in w'.origin && w'.origin[s] == w.origin[s])
    && w.minted <= w'.minted
    && w.redeemed <= w'.redeemed
  }

  lemma StepRemembers(w: World, a: Action)
    requires Enabled(w, a)
    ensures Remembers(w, Next(w, a))
  {
  }

  lemma {:induction false} RunRemembers(w: World, run: seq<Action>)
    requires Runs(w, run)
    ensures Remembers(w, After(w, run))
    decreases |run|
  {
    if run == [] {
    } else {
      StepRemembers(w, run[0]);
      RunRemembers(Next(w, run[0]), run[1..]);
    }
  }

  // ----- what an approval is worth -----

  /** This step takes the approval out of force. */
  ghost predicate EndsApproval(w: World, a: Action, ap: Approval) {
    match a
    case Delete(id) => id == ap.userId
    case Bump(id) => id == ap.userId
    case Disconnect(id, client) => id == ap.userId && client == ap.clientId
    case RevokeRefresh(client, secret) =>
      RefreshRevocable(w.tables, client, secret) && w.tables.refreshes[secret].userId == ap.userId
          && client == ap.clientId
    case RevokeAccess(token, id) =>
      AccessRevocable(w.tables, token, id) && id == ap.userId && token.clientId == ap.clientId
    case _ => false
  }

  lemma ForceAfterEnding(w: World, a: Action, ap: Approval)
    requires Inv(w) && Ends(a) && ap in w.approvals
    ensures InForce(Next(w, a).tables, ap) <==> InForce(w.tables, ap) && !EndsApproval(w, a, ap)
  {
    EndingShrinks(w, a);
    var t, t', pair := w.tables, Next(w, a).tables, (ap.userId, ap.clientId);
    var i :| 0 <= i < |w.approvals| && w.approvals[i] == ap;
    if !Living(t, ap) {
      assert !Living(t', ap);
    } else if EndsApproval(w, a, ap) {
      assert pair in t.grants;
    }
  }

  /** An approval goes out of force by exactly these steps, and never comes back. */
  lemma ForceAfterStep(w: World, a: Action, i: nat)
    requires Inv(w) && Enabled(w, a) && i < |w.approvals|
    ensures InForce(Next(w, a).tables, w.approvals[i]) <==>
            InForce(w.tables, w.approvals[i]) && !EndsApproval(w, a, w.approvals[i])
  {
    var ap, t, t' := w.approvals[i], w.tables, Next(w, a).tables;
    if Ends(a) {
      ForceAfterEnding(w, a, ap);
    } else if a.Register? {
      assert ap.subject in w.accounts;
    } else if a.Exchange? || a.Rotate? {
      assert t'.users == t.users && t'.grants == t.grants;
    }
  }

  /** No step of the run takes the approval out of force. */
  ghost predicate Spared(w: World, run: seq<Action>, ap: Approval)
    decreases |run|
  {
    run != [] ==> !EndsApproval(w, run[0], ap) && Spared(Next(w, run[0]), run[1..], ap)
  }

  lemma {:induction false} ForceAfterRun(w: World, run: seq<Action>, i: nat)
    requires Inv(w) && Runs(w, run) && i < |w.approvals|
    ensures InForce(After(w, run).tables, w.approvals[i]) <==>
            InForce(w.tables, w.approvals[i]) && Spared(w, run, w.approvals[i])
    decreases |run|
  {
    if run == [] {
    } else {
      ForceAfterStep(w, run[0], i);
      StepKeepsInv(w, run[0]);
      StepRemembers(w, run[0]);
      ForceAfterRun(Next(w, run[0]), run[1..], i);
    }
  }

  /** A stored secret can be spent, and a signed token opens the endpoint, exactly while its approval is in force. */
  lemma WorthExactly(w: World)
    requires Inv(w)
    ensures forall s, client, time, next :: s in w.tables.codes ==>
              (Exchanged(w.tables, client, s, next, time).1.Success? <==>
               Presentable(w.tables.codes, client, s, time) && InForce(w.tables, w.approvals[w.origin[s]]))
    ensures forall s, client, scopes, time, next :: s in w.tables.refreshes ==>
              (Rotated(w.tables, client, s, scopes, next, time).1.Success? <==>
               Presentable(w.tables.refreshes, client, s, time) && InForce(w.tables, w.approvals[w.origin[s]]))
    ensures forall m, time :: m in w.minted ==>
              (Accepted(w.tables, m.token, time) <==>
               Unexpired(m.token, time) && InForce(w.tables, w.approvals[m.approval]))
  {
    forall m, time | m in w.minted
      ensures Accepted(w.tables, m.token, time) <==>
              Unexpired(m.token, time) && InForce(w.tables, w.approvals[m.approval])
    {
      var a := w.approvals[m.approval];
      assert w.accounts[a.subject] == a.userId;
      if Unexpired(m.token, time) && InForce(w.tables, a) {
        assert AcceptedAs(w.tables, m.token, time, a.userId);
      }
    }
  }

  // ----- main theorems -----

  lemma StartIsGood()
    ensures Inv(START)
  {
  }

  /**
   Once a pair is disconnected or revoked, the account's token version is bumped, or the account is
   deleted, nothing that descends from an earlier approval is ever accepted again, whatever happens
   in between and whatever the clock then reads.
   */
  lemma RevocationIsFinal(before: seq<Action>, end: Action, later: seq<Action>, i: nat)
    requires Runs(START, before)
    requires var w := After(START, before); Enabled(w, end) && Runs(Next(w, end), later)
    requires var w := After(START, before); i < |w.approvals| && EndsApproval(w, end, w.approvals[i])
    ensures var w := After(Next(After(START, before), end), later);
            && (forall m, time :: m in w.minted && m.approval == i ==> !Accepted(w.tables, m.token, time))
            && (forall s, client, time, next :: s in w.origin && w.origin[s] == i ==>
                  Exchanged(w.tables, client, s, next, time).1.Failure?
                      && Exchanged(w.tables, client, s, next, time).0 == w.tables)
            && (forall s, client, scopes, time, next :: s in w.origin && w.origin[s] == i ==>
                  Rotated(w.tables, client, s, scopes, next, time).1.Failure?
                      && Rotated(w.tables, client, s, scopes, next, time).0 == w.tables)
  {
    StartIsGood();
    RunKeepsInv(START, before);
    var w0 := After(START, before);
    var w1 := Next(w0, end);
    StepKeepsInv(w0, end);
    StepRemembers(w0, end);
    ForceAfterStep(w0, end, i);
    RunKeepsInv(w1, later);
    RunRemembers(w1, later);
    ForceAfterRun(w1, later, i);
    var w := After(w1, later);
    assert w.approvals[i] == w0.approvals[i];
    WorthExactly(w);
  }

  predicate Redeems(w: World, a: Action, secret: Secret) {
    (a.Exchange? || a.Rotate?) && a.secret == secret && Redeemable(w.tables, Rows(w, a), a.clientId, secret, w.now)
  }

  ghost function Redemptions(w: World, run: seq<Action>, secret: Secret): nat
    decreases |run|
  {
    if run == [] then 0
    else (if Redeems(w, run[0], secret) then 1 else 0) + Redemptions(Next(w, run[0]), run[1..], secret)
  }

  lemma {:induction false} RedemptionsCounted(w: World, run: seq<Action>, secret: Secret)
    requires Inv(w) && Runs(w, run)
    ensures Redemptions(w, run, secret) <= if secret in w.redeemed then 0 else 1
    decreases |run|
  {
    if run == [] {
    } else {
      var a := run[0];
      StepKeepsInv(w, a);
      StepRemembers(w, a);
      RedemptionsCounted(Next(w, a), run[1..], secret);
      if Redeems(w, a, secret) {
        RedemptionSpends(w, a);
      }
    }
  }

  /** Over any run each secret is redeemed at most once, and no approval ever has two live credentials. */
  lemma CredentialsAreConserved(run: seq<Action>, secret: Secret)
    requires Runs(START, run)
    ensures Redemptions(START, run, secret) <= 1
    ensures var w := After(START, run);
            forall r, s :: r in Live(w.tables) && s in Live(w.tables) ==>
              r in w.origin && s in w.origin && (w.origin[r] == w.origin[s] ==> r == s)
  {
    StartIsGood();
    RedemptionsCounted(START, run, secret);
    RunKeepsInv(START, run);
  }

  /** The account, its token version or its grant's version is not what it was. */
  ghost predicate Moved(t: Tables, t': Tables, pair: Pair)
    requires pair in t.grants && pair.0 in t.users
  {
    || pair.0 !in t'.users || t'.users[pair.0] != t.users[pair.0]
    || pair !in t'.grants || t'.grants[pair] != t.grants[pair]
  }

  /**
   A refresh token validated at one moment and revoked later, after any run: the revocation leaves
   every table alone if the account, token version or grant version moved or the token was spent,
   and otherwise takes effect.
   */
  lemma DelayedRefreshRevoke(before: seq<Action>, gap: seq<Action>, client: ClientId, secret: Secret)
    requires Runs(START, before)
    requires var w := After(START, before); RefreshRevocable(w.tables, client, secret) && Runs(w, gap)
    ensures var w := After(START, before); var w' := After(w, gap);
            RefreshRevoked(w'.tables, client, secret) == w'.tables <==>
            Moved(w.tables, w'.tables, (w.tables.refreshes[secret].userId, client)) || secret !in w'.tables.refreshes
  {
    StartIsGood();
    RunKeepsInv(START, before);
    var w := After(START, before);
    RunKeepsInv(w, gap);
    RunRemembers(w, gap);
    var w' := After(w, gap);
    var pair := (w.tables.refreshes[secret].userId, client);
    if secret in w'.tables.refreshes {
      assert w'.origin[secret] == w.origin[secret];
      var a := w'.approvals[w'.origin[secret]];
      assert a == w.approvals[w.origin[secret]];
      assert Carries(w'.tables.refreshes[secret], a) && Carries(w.tables.refreshes[secret], a);
      assert Living(w.tables, a) && Living(w'.tables, a);
    }
    if RefreshRevocable(w'.tables, client, secret) {
      assert RefreshRevoked(w'.tables, client, secret).grants[pair] != w'.tables.grants[pair];
    }
  }

  /**
   What revoking an access token leaves of `update`'s tables: the token is resolved to its account in
   `resolve`, possibly before other transactions commit, and the conditional update follows in `update`.
   */
  function AccessRevokedLate(resolve: World, update: World, token: AccessToken, userId: UserId): Tables {
    if Unexpired(token, resolve.now) && AccessRevocable(resolve.tables, token, userId)
    then AccessRevoked(update.tables, token, userId) else update.tables
  }

  /**
   An access token that was accepted at one moment, is resolved again after any run and revoked after
   another one: every table is left alone if and only if the token had expired by then, or the
   account, its token version or its grant version moved in all that time.
   */
  lemma DelayedAccessRevoke(before: seq<Action>, first: seq<Action>, second: seq<Action>, m: Minted, userId: UserId)
    requires Runs(START, before)
    requires var w := After(START, before);
             && m in w.minted && AcceptedAs(w.tables, m.token, w.now, userId)
             && Runs(w, first) && Runs(After(w, first), second)
    ensures var w := After(START, before);
            var resolve := After(w, first);
            var update := After(resolve, second);
            AccessRevokedLate(resolve, update, m.token, userId) == update.tables <==>
            !Unexpired(m.token, resolve.now) || Moved(w.tables, update.tables, (userId, m.token.clientId))
  {
    StartIsGood();
    RunKeepsInv(START, before);
    var w := After(START, before);
    RunKeepsInv(w, first);
    RunRemembers(w, first);
    var resolve := After(w, first);
    var update := After(resolve, second);
    var a := w.approvals[m.approval];
    assert w.accounts[a.subject] == a.userId == userId;
    assert resolve.approvals[m.approval] == a;
    ForceAfterRun(resolve, second, m.approval);
    assert InForce(update.tables, a) ==> InForce(resolve.tables, a);
    assert InForce(update.tables, a) <==> AccessRevocable(update.tables, m.token, userId);
    assert InForce(resolve.tables, a) <==> AccessRevocable(resolve.tables, m.token, userId);
    if AccessRevocable(update.tables, m.token, userId) {
      var pair := (userId, m.token.clientId);
      assert AccessRevoked(update.tables, m.token, userId).grants[pair] != update.tables.grants[pair];
    }
  }

  /** An app is listed as connected exactly when some refresh token of the account would still rotate. */
  lemma ConnectedExactly(run: seq<Action>, userId: UserId, client: ClientId, next: Secret)
    requires Runs(START, run)
    ensures var w := After(START, run);
            client in ConnectedClients(w.tables, userId, w.now) <==>
            exists s :: s in w.origin && w.origin[s] < |w.approvals| && w.approvals[w.origin[s]].userId == userId
                        && Rotated(w.tables, client, s, [], next, w.now).1.Success?
  {
    StartIsGood();
    RunKeepsInv(START, run);
    var w := After(START, run);
    var t := w.tables;
    if client in ConnectedClients(t, userId, w.now) {
      var s :| s in t.refreshes && t.refreshes[s].userId == userId && Current(t, t.refreshes[s])
               && w.now < t.refreshes[s].expiresAt && t.refreshes[s].clientId == client;
      assert Rotated(t, client, s, [], next, w.now).1.Success?;
    }
    if s :| s in w.origin && w.origin[s] < |w.approvals| && w.approvals[w.origin[s]].userId == userId
            && Rotated(t, client, s, [], next, w.now).1.Success?
    {
      assert s in t.refreshes && t.refreshes[s].userId == userId;
      assert t.refreshes[s].clientId in ConnectedClients(t, userId, w.now);
    }
  }
}
