/**
 Safety of whole runs of session requests: refresh tokens are exchanged at most once, and
 revocation is permanent, exactly when blacklist rows outlive refresh tokens and cover their texts.
 */
module SessionSafety {
  import opened Base
  import opened SessionStores
  import opened Sessions

  // ---- Runs ----

  datatype Op =
    | CreateTokens(user: UserId, role: string, id: FamilyId)
    | Refresh(token: Token)
    | Logout(accessToken: Token, refreshToken: Token)
    | ResetPassword(resetUser: UserId)
    | PruneBlacklist
    | PruneFamilies

  datatype Request = Request(now: nat, op: Op)

  datatype World = World(clock: nat, stores: Stores)

  const START := World(0, Stores(map[], map[], {}))

  ghost function Apply(cfg: TokenConfig, s: Stores, r: Request): Stores {
    match r.op
    case CreateTokens(user, role, id) => AfterCreateTokens(cfg, s, user, role, id, r.now)
    case Refresh(token) => AfterRefresh(cfg, s, token, r.now)
    case Logout(access, refresh) => AfterLogout(s, access, refresh, r.now)
    case ResetPassword(user) => s.(families := UserRevoked(s.families, user, r.now))
    case PruneBlacklist => s.(blacklist := BlacklistPruned(s.blacklist, r.now))
    case PruneFamilies => s.(families := FamiliesPruned(s.families, r.now - FAMILY_MAX_AGE_MS))
  }

  ghost function Next(cfg: TokenConfig, w: World, r: Request): World {
    World(r.now, Apply(cfg, w.stores, r))
  }

  /** The clock never goes back, family ids are new, and a user's signatures fall in different seconds. */
  ghost predicate Admissible(u: Setup, w: World, r: Request) {
    && r.now >= w.clock
    && match r.op
       case CreateTokens(user, role, id) => NewSecond(u.tokens, w.stores.issued, user, role, r.now) && id !in w.stores.families
       case Refresh(token) =>
         && MaySubmit(u, w.stores.issued, token)
         && (RefreshAnswer(w.stores, token, r.now) == Accepted ==>
               NewSecond(u.tokens, w.stores.issued, token.claims.sub, token.claims.role, r.now))
       case Logout(access, refresh) =>
         && MaySubmit(u, w.stores.issued, access) && MaySubmit(u, w.stores.issued, refresh)
         && (u.strictLogout ==> !IsRefreshToken(w.stores.issued, access))
       case _ => true
  }

  /** The world before request k. */
  ghost function WorldAt(u: Setup, run: seq<Request>, k: nat): World
    requires k <= |run|
  {
    if k == 0 then START else Next(u.tokens, WorldAt(u, run, k - 1), run[k - 1])
  }

  /** The first k requests are admissible. */
  ghost predicate ValidPrefix(u: Setup, run: seq<Request>, k: nat)
    requires k <= |run|
  {
    k == 0 || (ValidPrefix(u, run, k - 1) && Admissible(u, WorldAt(u, run, k - 1), run[k - 1]))
  }

  ghost predicate ValidRun(u: Setup, run: seq<Request>) {
    ValidPrefix(u, run, |run|)
  }

  lemma {:induction false} ValidPrefixes(u: Setup, run: seq<Request>, k: nat, n: nat)
    requires k <= n <= |run| && ValidPrefix(u, run, n)
    ensures ValidPrefix(u, run, k)
    ensures k < n ==> Admissible(u, WorldAt(u, run, k), run[k])
  {
    hide Admissible, Next;
    if k < n {
      ValidPrefixes(u, run, k, n - 1);
    }
  }

  /** Request k of the run exchanges the signed refresh token c, in whatever text, for a new pair. */
  ghost predicate ExchangedAt(u: Setup, run: seq<Request>, k: nat, c: Claims) {
    && k < |run| && run[k].op.Refresh? && run[k].op.token.Jwt? && run[k].op.token.claims == c
    && RefreshAnswer(WorldAt(u, run, k).stores, run[k].op.token, run[k].now) == Accepted
  }

  /** Request k of the run revokes every session of the user. */
  ghost predicate RevokesUserAt(u: Setup, run: seq<Request>, k: nat, user: UserId) {
    && k < |run|
    && (|| run[k].op == ResetPassword(user)
        || (run[k].op.Refresh?
            && RefreshAnswer(WorldAt(u, run, k).stores, run[k].op.token, run[k].now) == ReuseDetected(user)))
  }

  /** c is a refresh token of the user signed before request k. */
  ghost predicate HeldAt(u: Setup, run: seq<Request>, k: nat, c: Claims, user: UserId) {
    k <= |run| && IsRefresh(WorldAt(u, run, k).stores.issued, c) && c.sub == user
  }

  // ---- When tokens were signed ----

  lemma SignedOkStep(u: Setup, w: World, r: Request)
    requires SignedOk(u, w.stores.issued, w.clock) && Admissible(u, w, r)
    ensures SignedOk(u, Next(u.tokens, w, r).stores.issued, r.now) && w.stores.issued <= Next(u.tokens, w, r).stores.issued
  {
  }

  lemma {:induction false} SignedOkAt(u: Setup, run: seq<Request>, i: nat, j: nat)
    requires i <= j <= |run| && ValidPrefix(u, run, j)
    ensures SignedOk(u, WorldAt(u, run, j).stores.issued, WorldAt(u, run, j).clock)
    ensures WorldAt(u, run, i).stores.issued <= WorldAt(u, run, j).stores.issued
    ensures WorldAt(u, run, i).clock <= WorldAt(u, run, j).clock
  {
    hide Next, Admissible, SignedOk;
    if i < j {
      SignedOkAt(u, run, i, j - 1);
      SignedOkStep(u, WorldAt(u, run, j - 1), run[j - 1]);
      ClockMoves(u, WorldAt(u, run, j - 1), run[j - 1]);
    } else if j > 0 {
      SignedOkAt(u, run, j - 1, j - 1);
      SignedOkStep(u, WorldAt(u, run, j - 1), run[j - 1]);
      ClockMoves(u, WorldAt(u, run, j - 1), run[j - 1]);
    } else {
      SignedOkStart(u);
    }
  }

  lemma SignedOkStart(u: Setup)
    ensures SignedOk(u, {}, 0)
  {
  }

  lemma ClockMoves(u: Setup, w: World, r: Request)
    requires Admissible(u, w, r)
    ensures w.clock <= r.now == Next(u.tokens, w, r).clock
  {
  }

  /** An exchange happens in a later second than the signature, and signs in that second. */
  lemma ExchangeIsLater(u: Setup, w: World, r: Request)
    requires SignedOk(u, w.stores.issued, w.clock) && Admissible(u, w, r) && r.op.Refresh?
    requires RefreshAnswer(w.stores, r.op.token, r.now) == Accepted
    ensures var c := r.op.token.claims;
            && IsRefresh(w.stores.issued, c) && u.tokens.refreshTtl <= c.exp
            && c.exp - u.tokens.refreshTtl < r.now / 1000 <= c.exp
            && Claimed(u.tokens, c.sub, c.role, RefreshKind, r.now) !in w.stores.issued
            && Claimed(u.tokens, c.sub, c.role, RefreshKind, r.now) in Next(u.tokens, w, r).stores.issued
  {
  }

  /** Two exchanges of one token take two seconds after the one of its signature. */
  lemma SecondExchangeIsLater(u: Setup, run: seq<Request>, i: nat, j: nat, c: Claims)
    requires ValidRun(u, run) && i < j && ExchangedAt(u, run, i, c) && ExchangedAt(u, run, j, c)
    ensures u.tokens.refreshTtl >= 2
  {
    hide Next, Admissible, SignedOk, RefreshAnswer;
    ValidPrefixes(u, run, i, |run|);
    ValidPrefixes(u, run, j, |run|);
    SignedOkAt(u, run, i, i);
    SignedOkAt(u, run, i + 1, j);
    var (w, w') := (WorldAt(u, run, i), WorldAt(u, run, j));
    ExchangeIsLater(u, w, run[i]);
    ExchangeIsLater(u, w', run[j]);
    ClockMoves(u, w, run[i]);
    ClockMoves(u, w', run[j]);
  }

  // ---- The invariant ----

  /** Expired by now, or blacklisted past its expiry, or down to a last second that is used up. */
  ghost predicate Spent(u: Setup, w: World, c: Claims) {
    || ExpiryMs(c) <= w.clock
    || (Sha256(Written(c)) in w.stores.blacklist && w.stores.blacklist[Sha256(Written(c))] >= ExpiryMs(c))
    || LastSecond(u, c) in w.stores.issued
  }

  ghost predicate HasFamily(f: Families, t: Token) {
    exists id :: IsCurrent(f, id, Sha256(t))
  }

  /** A blacklist row about a refresh token lasts until its last second, and the token is spent or the
      current token of a family. */
  ghost predicate TokenOk(u: Setup, w: World, c: Claims) {
    var (s, h) := (w.stores, Sha256(Written(c)));
    IsRefresh(s.issued, c) ==>
      && (h in s.blacklist ==> s.blacklist[h] >= 1000 * c.exp)
      && (Spent(u, w, c) || HasFamily(s.families, Written(c)))
  }

  /** A family's current token is a refresh token of its user, as it was written, and signed no later than
      the second of the last update. */
  ghost predicate FamilyOk(u: Setup, w: World, id: FamilyId) {
    var s := w.stores;
    id in s.families ==>
      var (f, t) := (s.families[id], s.families[id].currentHash.text);
      && IsRefreshToken(s.issued, t) && t == Written(t.claims)
      && t.claims.sub == f.userId
      && f.updatedAt <= w.clock
      && ExpiryMs(t.claims) <= f.updatedAt + 1000 * (u.tokens.refreshTtl + 1)
  }

  /** Nobody submits a signed text before it is signed. */
  ghost predicate RowsOk(w: World) {
    forall h :: h in w.stores.blacklist && h.text.Jwt? ==> h.text.claims in w.stores.issued
  }

  ghost predicate Inv(u: Setup, w: World) {
    && UniqueCurrent(w.stores.families)
    && SignedOk(u, w.stores.issued, w.clock)
    && RowsOk(w)
    && (forall c :: TokenOk(u, w, c))
    && (forall id :: FamilyOk(u, w, id))
  }

  /** An accepted token is the current token of an unrevoked family of its user. */
  lemma AcceptedIsCurrent(u: Setup, w: World, r: Request)
    requires Covers(u) && Inv(u, w) && Admissible(u, w, r) && r.op.Refresh?
    requires RefreshAnswer(w.stores, r.op.token, r.now) == Accepted
    ensures r.op.token.Jwt? && IsRefresh(w.stores.issued, r.op.token.claims) && r.op.token == Written(r.op.token.claims)
    ensures !Spent(u, w, r.op.token.claims)
    ensures var found := FindByHash(w.stores.families, Sha256(r.op.token));
            found.Some? && !w.stores.families[found.value].revoked
  {
    var c := r.op.token.claims;
    ExpiryIsFloored(c, r.now);
    assert TokenOk(u, w, c);
  }

  lemma RowsStep(u: Setup, w: World, r: Request)
    requires RowsOk(w) && Admissible(u, w, r)
    ensures RowsOk(Next(u.tokens, w, r))
  {
  }

  /** The token of a signature in a new second is no family's current token. */
  lemma NewIsNotCurrent(u: Setup, w: World, sub: UserId, role: string, now: nat)
    requires (forall id :: FamilyOk(u, w, id)) && NewSecond(u.tokens, w.stores.issued, sub, role, now)
    ensures NeverCurrent(w.stores.families, Written(Claimed(u.tokens, sub, role, RefreshKind, now)))
  {
    forall id | id in w.stores.families
      ensures w.stores.families[id].currentHash != Sha256(Written(Claimed(u.tokens, sub, role, RefreshKind, now))) {
      assert FamilyOk(u, w, id);
    }
  }

  lemma NewHashIsUnique(f: Families, id: FamilyId, t: Token, h: TokenHash, user: UserId, now: nat)
    requires UniqueCurrent(f) && NeverCurrent(f, t)
    ensures UniqueCurrent(Inserted(f, id, user, Sha256(t), now)) && UniqueCurrent(Rotated(f, id, h, Sha256(t), now))
  {
  }

  lemma UniqueStep(u: Setup, w: World, r: Request)
    requires UniqueCurrent(w.stores.families) && (forall id :: FamilyOk(u, w, id)) && Admissible(u, w, r)
    ensures UniqueCurrent(Next(u.tokens, w, r).stores.families)
  {
    hide FamilyOk, NewSecond, NeverCurrent, MaySubmit;
    var f := w.stores.families;
    match r.op
    case CreateTokens(user, role, id) =>
      NewIsNotCurrent(u, w, user, role, r.now);
      var t := Written(Claimed(u.tokens, user, role, RefreshKind, r.now));
      NewHashIsUnique(f, id, t, Sha256(t), user, r.now);
    case Refresh(token) =>
      if RefreshAnswer(w.stores, token, r.now) == Accepted {
        var (sub, role) := (token.claims.sub, token.claims.role);
        NewIsNotCurrent(u, w, sub, role, r.now);
        var found := FindByHash(f, Sha256(token));
        if found.Some? {
          NewHashIsUnique(f, found.value, Written(Claimed(u.tokens, sub, role, RefreshKind, r.now)), Sha256(token), sub, r.now);
        }
      }
    case _ =>
  }

  lemma FamilyOnExchange(u: Setup, w: World, r: Request, id: FamilyId)
    requires Admissible(u, w, r) && r.op.Refresh? && RefreshAnswer(w.stores, r.op.token, r.now) == Accepted
    requires FamilyOk(u, w, id) && FindByHash(w.stores.families, Sha256(r.op.token)).Some?
    requires FamilyOk(u, w, FindByHash(w.stores.families, Sha256(r.op.token)).value)
    ensures FamilyOk(u, Next(u.tokens, w, r), id)
  {
    hide NewSecond, MaySubmit;
  }

  lemma FamilyOtherwise(u: Setup, w: World, r: Request, id: FamilyId)
    requires Admissible(u, w, r) && FamilyOk(u, w, id)
    requires r.op.Refresh? ==> RefreshAnswer(w.stores, r.op.token, r.now) != Accepted
    ensures FamilyOk(u, Next(u.tokens, w, r), id)
  {
    hide NewSecond, MaySubmit, RefreshAnswer;
  }

  lemma FamilyStep(u: Setup, w: World, r: Request, id: FamilyId)
    requires Covers(u) && Inv(u, w) && Admissible(u, w, r)
    ensures FamilyOk(u, Next(u.tokens, w, r), id)
  {
    hide FamilyOk, TokenOk, Next, Admissible, RefreshAnswer, Covers;
    if r.op.Refresh? && RefreshAnswer(w.stores, r.op.token, r.now) == Accepted {
      AcceptedIsCurrent(u, w, r);
      FamilyOnExchange(u, w, r, id);
    } else {
      FamilyOtherwise(u, w, r, id);
    }
  }

  /** Outside refresh and pruning, a token that had a family still has it. */
  lemma FamilyKept(u: Setup, w: World, r: Request, t: Token)
    requires Covers(u) && Inv(u, w) && Admissible(u, w, r) && HasFamily(w.stores.families, t)
    ensures HasFamily(Next(u.tokens, w, r).stores.families, t)
            || (r.op.Refresh? && r.op.token == t && RefreshAnswer(w.stores, t, r.now) == Accepted)
            || (r.op.PruneFamilies? && exists id :: IsCurrent(w.stores.families, id, Sha256(t))
                                                    && w.stores.families[id].updatedAt + FAMILY_MAX_AGE_MS < r.now)
  {
    var id :| IsCurrent(w.stores.families, id, Sha256(t));
    var f' := Next(u.tokens, w, r).stores.families;
    if r.op.Refresh? && RefreshAnswer(w.stores, r.op.token, r.now) == Accepted {
      AcceptedIsCurrent(u, w, r);
    }
    hide TokenOk, SignedOk, RowsOk, Spent, Covers;
    assert id in f' && f'[id].currentHash == Sha256(t) ==> IsCurrent(f', id, Sha256(t));
  }

  /** Once spent, always spent. */
  lemma SpentStep(u: Setup, w: World, r: Request, c: Claims)
    requires Admissible(u, w, r) && Spent(u, w, c)
    ensures Spent(u, Next(u.tokens, w, r), c)
  {
  }

  /** A row about a refresh token is written no sooner than in the second of its signature. */
  lemma RowStep(u: Setup, w: World, r: Request, c: Claims)
    requires Covers(u) && Inv(u, w) && Admissible(u, w, r) && IsRefresh(Next(u.tokens, w, r).stores.issued, c)
    requires Sha256(Written(c)) in Next(u.tokens, w, r).stores.blacklist
    ensures Next(u.tokens, w, r).stores.blacklist[Sha256(Written(c))] >= 1000 * c.exp
  {
    hide FamilyOk, UniqueCurrent, Spent, HasFamily;
    assert TokenOk(u, w, c);
    SignedOkStep(u, w, r);
  }

  /** An exchanged token is spent: its row lasts, or the exchange was in its last second. */
  lemma ExchangeSpends(u: Setup, w: World, r: Request)
    requires Covers(u) && Inv(u, w) && Admissible(u, w, r)
    requires r.op.Refresh? && RefreshAnswer(w.stores, r.op.token, r.now) == Accepted
    ensures r.op.token.Jwt? && Spent(u, Next(u.tokens, w, r), r.op.token.claims)
    ensures !HasFamily(Next(u.tokens, w, r).stores.families, Written(r.op.token.claims))
  {
    AcceptedIsCurrent(u, w, r);
    ExchangeIsLater(u, w, r);
    var c := r.op.token.claims;
    assert TokenOk(u, w, c);
    hide TokenOk, FamilyOk, RowsOk;
  }

  lemma TokenStep(u: Setup, w: World, r: Request, c: Claims)
    requires Covers(u) && Inv(u, w) && Admissible(u, w, r)
    ensures TokenOk(u, Next(u.tokens, w, r), c)
  {
    var w' := Next(u.tokens, w, r);
    if IsRefresh(w'.stores.issued, c) {
      if Sha256(Written(c)) in w'.stores.blacklist {
        RowStep(u, w, r, c);
      }
      if !IsRefresh(w.stores.issued, c) {
        NewHasFamily(u, w, r, c);
      } else if Spent(u, w, c) {
        SpentStep(u, w, r, c);
      } else {
        StillSafe(u, w, r, c);
      }
    }
  }

  lemma NewHasFamily(u: Setup, w: World, r: Request, c: Claims)
    requires Covers(u) && Inv(u, w) && Admissible(u, w, r)
    requires !IsRefresh(w.stores.issued, c) && IsRefresh(Next(u.tokens, w, r).stores.issued, c)
    ensures HasFamily(Next(u.tokens, w, r).stores.families, Written(c))
  {
    var w' := Next(u.tokens, w, r);
    if r.op.Refresh? {
      AcceptedIsCurrent(u, w, r);
      var id := FindByHash(w.stores.families, Sha256(r.op.token)).value;
      assert IsCurrent(w'.stores.families, id, Sha256(Written(c)));
    } else {
      assert IsCurrent(w'.stores.families, r.op.id, Sha256(Written(c)));
    }
  }

  lemma StillSafe(u: Setup, w: World, r: Request, c: Claims)
    requires Covers(u) && Inv(u, w) && Admissible(u, w, r) && IsRefresh(w.stores.issued, c) && !Spent(u, w, c)
    ensures Spent(u, Next(u.tokens, w, r), c) || HasFamily(Next(u.tokens, w, r).stores.families, Written(c))
  {
    assert TokenOk(u, w, c);
    FamilyKept(u, w, r, Written(c));
    if !HasFamily(Next(u.tokens, w, r).stores.families, Written(c)) {
      if r.op.Refresh? {
        ExchangeSpends(u, w, r);
      } else {
        var id :| IsCurrent(w.stores.families, id, Sha256(Written(c)))
                  && w.stores.families[id].updatedAt + FAMILY_MAX_AGE_MS < r.now;
        assert FamilyOk(u, w, id);
      }
    }
  }

  lemma InvStep(u: Setup, w: World, r: Request)
    requires Covers(u) && Inv(u, w) && Admissible(u, w, r)
    ensures Inv(u, Next(u.tokens, w, r))
  {
    hide Next, Admissible, TokenOk, FamilyOk, Covers;
    SignedOkStep(u, w, r);
    ClockMoves(u, w, r);
    RowsStep(u, w, r);
    UniqueStep(u, w, r);
    forall c ensures TokenOk(u, Next(u.tokens, w, r), c) { TokenStep(u, w, r, c); }
    forall id ensures FamilyOk(u, Next(u.tokens, w, r), id) { FamilyStep(u, w, r, id); }
  }

  lemma InvStart(u: Setup)
    ensures Inv(u, START)
  {
  }

  lemma {:induction false} InvAt(u: Setup, run: seq<Request>, k: nat)
    requires Covers(u) && ValidRun(u, run) && k <= |run|
    ensures Inv(u, WorldAt(u, run, k))
  {
    hide Inv, Next, Admissible, Covers;
    if k == 0 {
      InvStart(u);
    } else {
      InvAt(u, run, k - 1);
      ValidPrefixes(u, run, k - 1, |run|);
      InvStep(u, WorldAt(u, run, k - 1), run[k - 1]);
    }
  }

  // ---- Dead tokens stay dead ----

  /** Spent, or the current token of a revoked family. */
  ghost predicate Dead(u: Setup, w: World, c: Claims) {
    Spent(u, w, c)
    || exists id :: IsCurrent(w.stores.families, id, Sha256(Written(c))) && w.stores.families[id].revoked
  }

  lemma DeadIsRefused(u: Setup, w: World, r: Request)
    requires Covers(u) && Inv(u, w) && Admissible(u, w, r) && r.op.Refresh? && r.op.token.Jwt?
    requires Dead(u, w, r.op.token.claims)
    ensures RefreshAnswer(w.stores, r.op.token, r.now) != Accepted
  {
    if RefreshAnswer(w.stores, r.op.token, r.now) == Accepted {
      AcceptedIsCurrent(u, w, r);
    }
  }

  lemma DeadStep(u: Setup, w: World, r: Request, c: Claims)
    requires Covers(u) && Inv(u, w) && Admissible(u, w, r) && Dead(u, w, c)
    ensures Dead(u, Next(u.tokens, w, r), c)
  {
    if Spent(u, w, c) {
      SpentStep(u, w, r, c);
    } else {
      var id :| IsCurrent(w.stores.families, id, Sha256(Written(c))) && w.stores.families[id].revoked;
      assert FamilyOk(u, w, id);
      if r.op.Refresh? && RefreshAnswer(w.stores, r.op.token, r.now) == Accepted {
        AcceptedIsCurrent(u, w, r);
      }
      hide TokenOk, SignedOk, RowsOk;
      var f' := Next(u.tokens, w, r).stores.families;
      assert id in f' ==> IsCurrent(f', id, Sha256(Written(c)));
    }
  }

  lemma {:induction false} DeadForever(u: Setup, run: seq<Request>, i: nat, j: nat, c: Claims)
    requires Covers(u) && ValidRun(u, run) && i <= j <= |run| && Dead(u, WorldAt(u, run, i), c)
    ensures Dead(u, WorldAt(u, run, j), c)
  {
    hide Inv, Next, Dead, Admissible, Covers;
    if i < j {
      DeadForever(u, run, i, j - 1, c);
      ValidPrefixes(u, run, j - 1, |run|);
      InvAt(u, run, j - 1);
      DeadStep(u, WorldAt(u, run, j - 1), run[j - 1], c);
    }
  }

  lemma DeadIsNeverExchanged(u: Setup, run: seq<Request>, i: nat, j: nat, c: Claims)
    requires Covers(u) && ValidRun(u, run) && i <= j <= |run| && Dead(u, WorldAt(u, run, i), c)
    ensures !ExchangedAt(u, run, j, c)
  {
    hide Inv, Next, Dead, Admissible, Covers, RefreshAnswer;
    if j < |run| && run[j].op.Refresh? && run[j].op.token.Jwt? && run[j].op.token.claims == c {
      DeadForever(u, run, i, j, c);
      ValidPrefixes(u, run, j, |run|);
      InvAt(u, run, j);
      DeadIsRefused(u, WorldAt(u, run, j), run[j]);
    }
  }

  lemma ExchangeSpendsAt(u: Setup, run: seq<Request>, i: nat, c: Claims)
    requires Covers(u) && ValidRun(u, run) && ExchangedAt(u, run, i, c)
    ensures var w' := WorldAt(u, run, i + 1);
            Dead(u, w', c) && c in w'.stores.issued && !HasFamily(w'.stores.families, Written(c))
  {
    hide Inv, Next, Admissible, HasFamily, Spent, Covers;
    ValidPrefixes(u, run, i, |run|);
    InvAt(u, run, i);
    ExchangeSpends(u, WorldAt(u, run, i), run[i]);
    ValidPrefixes(u, run, i + 1, |run|);
    SignedOkAt(u, run, i, i + 1);
  }

  /** A signed refresh token is exchanged at most once, in whatever texts it is submitted. */
  lemma OneTimeUse(u: Setup, run: seq<Request>, i: nat, j: nat, c: Claims)
    requires Covers(u) && ValidRun(u, run) && ExchangedAt(u, run, i, c) && i < j
    ensures !ExchangedAt(u, run, j, c)
  {
    hide Dead, RefreshAnswer, Covers, HasFamily, ValidRun;
    if j < |run| {
      ExchangeSpendsAt(u, run, i, c);
      DeadIsNeverExchanged(u, run, i + 1, j, c);
    }
  }

  /** Hashes that become current are those of tokens signed just now. */
  lemma NeverCurrentStep(u: Setup, w: World, r: Request, c: Claims)
    requires Admissible(u, w, r) && c in w.stores.issued && !HasFamily(w.stores.families, Written(c))
    ensures c in Next(u.tokens, w, r).stores.issued && !HasFamily(Next(u.tokens, w, r).stores.families, Written(c))
  {
    forall id ensures !IsCurrent(Next(u.tokens, w, r).stores.families, id, Sha256(Written(c))) {
      assert !IsCurrent(w.stores.families, id, Sha256(Written(c)));
    }
  }

  lemma {:induction false} NeverCurrentAgain(u: Setup, run: seq<Request>, i: nat, j: nat, c: Claims)
    requires ValidRun(u, run) && i <= j <= |run|
    requires c in WorldAt(u, run, i).stores.issued && !HasFamily(WorldAt(u, run, i).stores.families, Written(c))
    ensures c in WorldAt(u, run, j).stores.issued && !HasFamily(WorldAt(u, run, j).stores.families, Written(c))
  {
    hide Next, HasFamily, Admissible;
    if i < j {
      NeverCurrentAgain(u, run, i, j - 1, c);
      ValidPrefixes(u, run, j - 1, |run|);
      NeverCurrentStep(u, WorldAt(u, run, j - 1), run[j - 1], c);
    }
  }

  lemma SpentReplayIsInert(u: Setup, w: World, r: Request)
    requires r.op.Refresh? && !HasFamily(w.stores.families, r.op.token)
    requires RefreshAnswer(w.stores, r.op.token, r.now) != Accepted
    ensures Next(u.tokens, w, r).stores == w.stores
  {
  }

  lemma SubmittedAsWritten(u: Setup, w: World, r: Request)
    requires Covers(u) && Admissible(u, w, r) && r.op.Refresh? && r.op.token.Jwt?
    ensures r.op.token == Written(r.op.token.claims)
  {
  }

  /** Presenting an exchanged token again changes no table: the family it came from stays usable,
      although the documentation says that the whole family is revoked. */
  lemma ReplayIsInert(u: Setup, run: seq<Request>, i: nat, j: nat, c: Claims)
    requires Covers(u) && ValidRun(u, run) && ExchangedAt(u, run, i, c) && i < j < |run|
    requires run[j].op.Refresh? && run[j].op.token.Jwt? && run[j].op.token.claims == c
    ensures WorldAt(u, run, j + 1).stores == WorldAt(u, run, j).stores
  {
    hide Next, HasFamily, Admissible, RefreshAnswer, Covers, Dead;
    OneTimeUse(u, run, i, j, c);
    ExchangeSpendsAt(u, run, i, c);
    NeverCurrentAgain(u, run, i + 1, j, c);
    ValidPrefixes(u, run, j, |run|);
    SubmittedAsWritten(u, WorldAt(u, run, j), run[j]);
    SpentReplayIsInert(u, WorldAt(u, run, j), run[j]);
  }

  /** Revoking a user's sessions kills every refresh token signed for the user until then. */
  lemma RevocationKills(u: Setup, w: World, r: Request, user: UserId, c: Claims)
    requires Covers(u) && Inv(u, w) && Admissible(u, w, r)
    requires IsRefresh(w.stores.issued, c) && c.sub == user
    requires r.op == ResetPassword(user)
             || (r.op.Refresh? && RefreshAnswer(w.stores, r.op.token, r.now) == ReuseDetected(user))
    ensures Dead(u, Next(u.tokens, w, r), c)
  {
    assert TokenOk(u, w, c);
    if Spent(u, w, c) {
      SpentStep(u, w, r, c);
    } else {
      var id :| IsCurrent(w.stores.families, id, Sha256(Written(c)));
      assert FamilyOk(u, w, id);
      assert IsCurrent(Next(u.tokens, w, r).stores.families, id, Sha256(Written(c)));
    }
  }

  /** Once a user's sessions are revoked, no refresh token signed for that user until then is
      exchanged again, in whatever text, even after the revoked rows are pruned. */
  lemma RevocationIsPermanent(u: Setup, run: seq<Request>, i: nat, j: nat, user: UserId, c: Claims)
    requires Covers(u) && ValidRun(u, run) && RevokesUserAt(u, run, i, user) && HeldAt(u, run, i, c, user) && i < j
    ensures !ExchangedAt(u, run, j, c)
  {
    hide Inv, Next, Admissible, Dead, Covers;
    if j < |run| {
      ValidPrefixes(u, run, i, |run|);
      InvAt(u, run, i);
      RevocationKills(u, WorldAt(u, run, i), run[i], user, c);
      DeadIsNeverExchanged(u, run, i + 1, j, c);
    }
  }

  lemma LogoutKills(u: Setup, w: World, r: Request)
    requires Covers(u) && Inv(u, w) && Admissible(u, w, r)
    requires r.op.Logout? && IsRefreshToken(w.stores.issued, r.op.refreshToken)
    ensures Dead(u, Next(u.tokens, w, r), r.op.refreshToken.claims)
    ensures forall id | id in w.stores.families && w.stores.families[id].currentHash == Sha256(r.op.refreshToken) ::
              id in Next(u.tokens, w, r).stores.families && Next(u.tokens, w, r).stores.families[id].revoked
  {
    var c := r.op.refreshToken.claims;
    assert r.op.refreshToken == Written(c);
    assert TokenOk(u, w, c);
    forall id | id in w.stores.families && w.stores.families[id].currentHash == Sha256(Written(c))
      ensures FindByHash(w.stores.families, Sha256(Written(c))) == Some(id)
    {
      assert IsCurrent(w.stores.families, id, Sha256(Written(c)));
    }
    if Spent(u, w, c) {
      SpentStep(u, w, r, c);
    } else {
      var id :| IsCurrent(w.stores.families, id, Sha256(Written(c)));
      assert IsCurrent(Next(u.tokens, w, r).stores.families, id, Sha256(Written(c)));
    }
  }

  /** A refresh token given to logout is never exchanged again, and its family is revoked. */
  lemma LogoutIsFinal(u: Setup, run: seq<Request>, i: nat, j: nat)
    requires Covers(u) && ValidRun(u, run) && i < j && i < |run|
    requires run[i].op.Logout? && IsRefreshToken(WorldAt(u, run, i).stores.issued, run[i].op.refreshToken)
    ensures !ExchangedAt(u, run, j, run[i].op.refreshToken.claims)
    ensures var (f, f') := (WorldAt(u, run, i).stores.families, WorldAt(u, run, i + 1).stores.families);
            forall id | id in f && f[id].currentHash == Sha256(run[i].op.refreshToken) :: id in f' && f'[id].revoked
  {
    hide Inv, Next, Admissible, Dead, Covers;
    ValidPrefixes(u, run, i, |run|);
    InvAt(u, run, i);
    LogoutKills(u, WorldAt(u, run, i), run[i]);
    if j < |run| {
      DeadIsNeverExchanged(u, run, i + 1, j, run[i].op.refreshToken.claims);
    }
  }

  // ---- What revocation and logout leave alone ----

  /** Reuse is detected for the very user of the token, in every covered run. */
  lemma ReuseNamesOwner(u: Setup, w: World, r: Request, user: UserId)
    requires Inv(u, w) && r.op.Refresh? && RefreshAnswer(w.stores, r.op.token, r.now) == ReuseDetected(user)
    ensures IsRefreshToken(w.stores.issued, r.op.token) && r.op.token.claims.sub == user
  {
    assert FamilyOk(u, w, FindByHash(w.stores.families, Sha256(r.op.token)).value);
  }

  lemma RevocationKeepsRows(u: Setup, w: World, r: Request, user: UserId, id: FamilyId)
    requires r.op == ResetPassword(user)
             || (r.op.Refresh? && RefreshAnswer(w.stores, r.op.token, r.now) == ReuseDetected(user))
    requires id in w.stores.families && w.stores.families[id].userId != user
    ensures var s := Next(u.tokens, w, r).stores;
            id in s.families && s.families[id] == w.stores.families[id]
    ensures var s := Next(u.tokens, w, r).stores; s.blacklist == w.stores.blacklist && s.issued == w.stores.issued
  {
  }

  /** A request that revokes a user's sessions leaves the families of every other user as they are. */
  lemma RevocationSparesFamilies(u: Setup, run: seq<Request>, i: nat, user: UserId, id: FamilyId)
    requires RevokesUserAt(u, run, i, user)
    requires id in WorldAt(u, run, i).stores.families && WorldAt(u, run, i).stores.families[id].userId != user
    ensures var (s, s') := (WorldAt(u, run, i).stores, WorldAt(u, run, i + 1).stores);
            id in s'.families && s'.families[id] == s.families[id]
  {
    hide Next, RefreshAnswer;
    RevocationKeepsRows(u, WorldAt(u, run, i), run[i], user, id);
  }

  lemma RevocationKeepsAccepted(u: Setup, w: World, r: Request, user: UserId, t: Token, now: nat)
    requires Covers(u) && Inv(u, w)
    requires r.op == ResetPassword(user)
             || (r.op.Refresh? && RefreshAnswer(w.stores, r.op.token, r.now) == ReuseDetected(user))
    requires t.Jwt? && t.claims.sub != user && RefreshAnswer(w.stores, t, now) == Accepted
    ensures RefreshAnswer(Next(u.tokens, w, r).stores, t, now) == Accepted
  {
    var (f, f') := (w.stores.families, Next(u.tokens, w, r).stores.families);
    forall id | IsCurrent(f', id, Sha256(t)) ensures !f'[id].revoked {
      assert FamilyOk(u, w, id);
      assert IsCurrent(f, id, Sha256(t));
      RevocationKeepsRows(u, w, r, user, id);
    }
    hide TokenOk, FamilyOk, SignedOk, RowsOk, Covers;
  }

  /** A refresh token of another user that refresh would accept before is accepted at that moment still. */
  lemma RevocationSparesTokens(u: Setup, run: seq<Request>, i: nat, user: UserId, t: Token)
    requires Covers(u) && ValidRun(u, run) && RevokesUserAt(u, run, i, user)
    requires t.Jwt? && t.claims.sub != user && RefreshAnswer(WorldAt(u, run, i).stores, t, run[i].now) == Accepted
    ensures RefreshAnswer(WorldAt(u, run, i + 1).stores, t, run[i].now) == Accepted
  {
    hide Next, RefreshAnswer, Inv, Covers;
    InvAt(u, run, i);
    RevocationKeepsAccepted(u, WorldAt(u, run, i), run[i], user, t, run[i].now);
  }

  // ---- A token stays usable until something happens to it ----

  /** c is the current token of an unrevoked family, and nobody has listed it. */
  ghost predicate Usable(w: World, c: Claims) {
    && IsRefresh(w.stores.issued, c) && Sha256(Written(c)) !in w.stores.blacklist
    && exists id :: IsCurrent(w.stores.families, id, Sha256(Written(c))) && !w.stores.families[id].revoked
  }

  /** The request presents c, gives it to logout, or revokes the sessions of its user. */
  ghost predicate Concerns(w: World, r: Request, c: Claims) {
    || (r.op.Refresh? && r.op.token == Written(c))
    || (r.op.Logout? && (r.op.accessToken == Written(c) || r.op.refreshToken == Written(c)))
    || r.op == ResetPassword(c.sub)
    || (r.op.Refresh? && RefreshAnswer(w.stores, r.op.token, r.now) == ReuseDetected(c.sub))
  }

  lemma UsableStep(u: Setup, w: World, r: Request, c: Claims)
    requires Covers(u) && Inv(u, w) && Admissible(u, w, r) && Usable(w, c) && !Concerns(w, r, c)
    requires r.now < ExpiryMs(c)
    ensures Usable(Next(u.tokens, w, r), c)
  {
    var id :| IsCurrent(w.stores.families, id, Sha256(Written(c))) && !w.stores.families[id].revoked;
    assert FamilyOk(u, w, id);
    hide TokenOk, SignedOk, RowsOk, FamilyOk, Spent, HasFamily;
    assert IsCurrent(Next(u.tokens, w, r).stores.families, id, Sha256(Written(c)));
  }

  lemma UsableIsAccepted(u: Setup, w: World, c: Claims, now: nat)
    requires UniqueCurrent(w.stores.families) && Usable(w, c) && now < ExpiryMs(c)
    ensures RefreshAnswer(w.stores, Written(c), now) == Accepted
  {
    ExpiryIsFloored(c, now);
  }

  /** Request i hands out the refresh token c: a login does, and so does an exchange. */
  ghost predicate HandsOutAt(u: Setup, run: seq<Request>, i: nat, c: Claims) {
    && i < |run|
    && match run[i].op
       case CreateTokens(user, role, _) => c == Claims(user, role, RefreshKind, run[i].now / 1000 + u.tokens.refreshTtl)
       case Refresh(t) =>
         && RefreshAnswer(WorldAt(u, run, i).stores, t, run[i].now) == Accepted
         && c == Claims(t.claims.sub, t.claims.role, RefreshKind, run[i].now / 1000 + u.tokens.refreshTtl)
       case _ => false
  }

  lemma HandedOutIsUsable(u: Setup, w: World, r: Request, c: Claims)
    requires Covers(u) && Inv(u, w) && Admissible(u, w, r)
    requires r.op.CreateTokens? ==> c == Claimed(u.tokens, r.op.user, r.op.role, RefreshKind, r.now)
    requires !r.op.CreateTokens? ==>
               && r.op.Refresh? && RefreshAnswer(w.stores, r.op.token, r.now) == Accepted
               && c == Claimed(u.tokens, r.op.token.claims.sub, r.op.token.claims.role, RefreshKind, r.now)
    ensures Usable(Next(u.tokens, w, r), c)
  {
    var w' := Next(u.tokens, w, r);
    if r.op.Refresh? {
      AcceptedIsCurrent(u, w, r);
      var id := FindByHash(w.stores.families, Sha256(r.op.token)).value;
      assert IsCurrent(w'.stores.families, id, Sha256(Written(c)));
    } else {
      assert IsCurrent(w'.stores.families, r.op.id, Sha256(Written(c)));
    }
  }

  lemma {:induction false} UsableFrom(u: Setup, run: seq<Request>, i: nat, j: nat, c: Claims)
    requires Covers(u) && ValidRun(u, run) && HandsOutAt(u, run, i, c) && i < j <= |run|
    requires forall k :: i < k < j ==> !Concerns(WorldAt(u, run, k), run[k], c) && run[k].now < ExpiryMs(c)
    ensures Usable(WorldAt(u, run, j), c)
    decreases j
  {
    hide Inv, Next, Admissible, Usable, Concerns, Covers, RefreshAnswer;
    ValidPrefixes(u, run, j - 1, |run|);
    InvAt(u, run, j - 1);
    if j == i + 1 {
      HandedOutIsUsable(u, WorldAt(u, run, i), run[i], c);
    } else {
      UsableFrom(u, run, i, j - 1, c);
      UsableStep(u, WorldAt(u, run, j - 1), run[j - 1], c);
    }
  }

  /** A refresh token that was handed out is accepted at any time before it expires, as long as nobody
      presented it, gave it to logout or revoked the sessions of its user. What other users and the other
      sessions of the same user do, logouts and prunings included, makes no difference. */
  lemma HandedOutIsAccepted(u: Setup, run: seq<Request>, i: nat, j: nat, c: Claims)
    requires Covers(u) && ValidRun(u, run) && HandsOutAt(u, run, i, c) && i < j < |run|
    requires forall k :: i < k < j ==> !Concerns(WorldAt(u, run, k), run[k], c)
    requires run[j].op == Refresh(Written(c)) && run[j].now < ExpiryMs(c)
    ensures ExchangedAt(u, run, j, c)
  {
    hide Inv, Next, Admissible, Usable, Concerns, Covers, RefreshAnswer;
    forall k | i < k < j ensures run[k].now < ExpiryMs(c) {
      ClockBetween(u, run, k, j);
    }
    UsableFrom(u, run, i, j, c);
    ValidPrefixes(u, run, j, |run|);
    InvAt(u, run, j);
    InvIsUnique(u, WorldAt(u, run, j));
    UsableIsAccepted(u, WorldAt(u, run, j), c, run[j].now);
  }

  lemma InvIsUnique(u: Setup, w: World)
    requires Inv(u, w)
    ensures UniqueCurrent(w.stores.families)
  {
  }

  lemma ClockBetween(u: Setup, run: seq<Request>, k: nat, j: nat)
    requires ValidRun(u, run) && k < j < |run|
    ensures run[k].now <= run[j].now
  {
    hide Next, Admissible;
    ValidPrefixes(u, run, k, |run|);
    ValidPrefixes(u, run, j, |run|);
    ClockMoves(u, WorldAt(u, run, k), run[k]);
    ClockMoves(u, WorldAt(u, run, j), run[j]);
    SignedOkAt(u, run, k + 1, j);
  }

  // ---- The condition is exact ----

  ghost predicate ExchangedTwice(u: Setup, run: seq<Request>, i: nat, j: nat, c: Claims) {
    ValidRun(u, run) && i < j && ExchangedAt(u, run, i, c) && ExchangedAt(u, run, j, c)
  }

  /** c is exchanged although the sessions of its user were revoked after it was signed. */
  ghost predicate ExchangedAfterRevocation(u: Setup, run: seq<Request>, i: nat, j: nat, user: UserId, c: Claims) {
    && ValidRun(u, run) && i < j && RevokesUserAt(u, run, i, user)
    && HeldAt(u, run, i, c, user) && ExchangedAt(u, run, j, c)
  }

  lemma WorldAtStep(u: Setup, run: seq<Request>, k: nat)
    requires k < |run|
    ensures WorldAt(u, run, k + 1) == Next(u.tokens, WorldAt(u, run, k), run[k])
    ensures ValidPrefix(u, run, k + 1) <==>
            ValidPrefix(u, run, k) && Admissible(u, WorldAt(u, run, k), run[k])
  {
  }

  /** When the answer to a replay is decided: no family, no row in force, not yet expired. */
  lemma LostTokenIsAccepted(s: Stores, t: Token, now: nat)
    requires !HasFamily(s.families, t) && VerifiesAsRefresh(s.issued, t, now) && !IsListed(s.blacklist, Sha256(t), now)
    ensures RefreshAnswer(s, t, now) == Accepted
  {
  }

  /** The refresh token that the runs below get for user "u" in this second. */
  function SignedIn(u: Setup, second: nat): Claims {
    Claims("u", "user", RefreshKind, second + u.tokens.refreshTtl)
  }

  /** The tables after a login of user "u" at time 0. */
  lemma LoginSigns(u: Setup)
    ensures Admissible(u, START, Request(0, CreateTokens("u", "user", "f")))
    ensures var w := Next(u.tokens, START, Request(0, CreateTokens("u", "user", "f")));
            w == World(0, Stores(map["f" := Family("u", Sha256(Written(SignedIn(u, 0))), false, 0, 0)], map[],
                                 Signed(u.tokens, {}, "u", "user", 0)))
  {
  }

  /** The tables after the current token of family "f" is exchanged, its text being as written. */
  lemma ExchangeMovesOn(u: Setup, s: Stores, c: Claims, now: nat)
    requires s.families.Keys == {"f"} && s.families["f"].currentHash == Sha256(Written(c)) && !s.families["f"].revoked
    requires VerifiesAsRefresh(s.issued, Written(c), now) && c.sub == "u" && c.role == "user"
    requires !IsListed(s.blacklist, Sha256(Written(c)), now)
    ensures RefreshAnswer(s, Written(c), now) == Accepted
    ensures AfterRefresh(u.tokens, s, Written(c), now) ==
            Stores(s.families["f" := s.families["f"].(currentHash := Sha256(Written(SignedIn(u, now / 1000))), updatedAt := now)],
                   Listed(s.blacklist, Sha256(Written(c)), now + BLACKLIST_MS),
                   Signed(u.tokens, s.issued, "u", "user", now))
  {
    assert IsCurrent(s.families, "f", Sha256(Written(c)));
  }

  lemma SignedSeconds(u: Setup, issued: Issued, now: nat, c: Claims)
    ensures IsRefresh(Signed(u.tokens, issued, "u", "user", now), c) <==>
            IsRefresh(issued, c) || c == SignedIn(u, now / 1000)
  {
  }

  /** With a longer lifetime, a token exchanged one second after its signature is exchanged again when
      its row ends, a password reset in between. */
  function LongLifeRun(u: Setup): seq<Request> {
    var t := Written(SignedIn(u, 0));
    [Request(0, CreateTokens("u", "user", "f")),
     Request(1000, Refresh(t)),
     Request(1000, ResetPassword("u")),
     Request(1000 + BLACKLIST_MS, Refresh(t))]
  }

  lemma LongLifeReplay(u: Setup)
    requires 1000 * u.tokens.refreshTtl > BLACKLIST_MS
    ensures ExchangedTwice(u, LongLifeRun(u), 1, 3, SignedIn(u, 0))
    ensures ExchangedAfterRevocation(u, LongLifeRun(u), 2, 3, "u", SignedIn(u, 0))
  {
    hide AfterRefresh, RefreshAnswer, Signed;
    var (run, c) := (LongLifeRun(u), SignedIn(u, 0));
    LoginSigns(u);
    WorldAtStep(u, run, 0);
    SignedSeconds(u, {}, 0, c);
    SignedSeconds(u, {}, 0, SignedIn(u, 1));
    ExchangeMovesOn(u, WorldAt(u, run, 1).stores, c, 1000);
    WorldAtStep(u, run, 1);
    WorldAtStep(u, run, 2);
    var later := 1 + BLACKLIST_MS / 1000;
    SignedSeconds(u, WorldAt(u, run, 1).stores.issued, 1000, c);
    SignedSeconds(u, WorldAt(u, run, 1).stores.issued, 1000, SignedIn(u, later));
    SignedSeconds(u, {}, 0, SignedIn(u, later));
    LostTokenIsAccepted(WorldAt(u, run, 3).stores, Written(c), 1000 + BLACKLIST_MS);
    WorldAtStep(u, run, 3);
  }

  /** A refresh token passed as logout's access token is listed for fifteen minutes only, and the
      expired row then keeps every later listing out. */
  function MisplacedLogoutRun(u: Setup): seq<Request> {
    var t := Written(SignedIn(u, 0));
    [Request(0, CreateTokens("u", "user", "f")),
     Request(0, Logout(t, Text("x"))),
     Request(ACCESS_BLACKLIST_MS, Refresh(t)),
     Request(ACCESS_BLACKLIST_MS, ResetPassword("u")),
     Request(ACCESS_BLACKLIST_MS + 1000, Refresh(t))]
  }

  lemma MisplacedLogoutReplay(u: Setup)
    requires !u.strictLogout && 1000 * u.tokens.refreshTtl > ACCESS_BLACKLIST_MS
    ensures ExchangedTwice(u, MisplacedLogoutRun(u), 2, 4, SignedIn(u, 0))
    ensures ExchangedAfterRevocation(u, MisplacedLogoutRun(u), 3, 4, "u", SignedIn(u, 0))
  {
    hide AfterRefresh, RefreshAnswer, Signed;
    var (run, c) := (MisplacedLogoutRun(u), SignedIn(u, 0));
    LoginSigns(u);
    WorldAtStep(u, run, 0);
    WorldAtStep(u, run, 1);
    var (first, second) := (ACCESS_BLACKLIST_MS / 1000, ACCESS_BLACKLIST_MS / 1000 + 1);
    SignedSeconds(u, {}, 0, c);
    SignedSeconds(u, {}, 0, SignedIn(u, first));
    SignedSeconds(u, {}, 0, SignedIn(u, second));
    ExchangeMovesOn(u, WorldAt(u, run, 2).stores, c, ACCESS_BLACKLIST_MS);
    WorldAtStep(u, run, 2);
    WorldAtStep(u, run, 3);
    SignedSeconds(u, WorldAt(u, run, 2).stores.issued, ACCESS_BLACKLIST_MS, c);
    SignedSeconds(u, WorldAt(u, run, 2).stores.issued, ACCESS_BLACKLIST_MS, SignedIn(u, second));
    LostTokenIsAccepted(WorldAt(u, run, 4).stores, Written(c), ACCESS_BLACKLIST_MS + 1000);
    WorldAtStep(u, run, 4);
  }

  /** A second text of the token is not the one blacklisted, and is the current token of no family. */
  function OtherTextRun(u: Setup): seq<Request> {
    var c := SignedIn(u, 0);
    [Request(0, CreateTokens("u", "user", "f")),
     Request(1000, Refresh(Written(c))),
     Request(2000, Refresh(Jwt(c, 1)))]
  }

  lemma OtherTextReplay(u: Setup)
    requires !u.strictTexts && u.tokens.refreshTtl >= 2
    ensures ExchangedTwice(u, OtherTextRun(u), 1, 2, SignedIn(u, 0))
  {
    hide AfterRefresh, RefreshAnswer, Signed;
    var (run, c) := (OtherTextRun(u), SignedIn(u, 0));
    LoginSigns(u);
    WorldAtStep(u, run, 0);
    SignedSeconds(u, {}, 0, c);
    SignedSeconds(u, {}, 0, SignedIn(u, 1));
    SignedSeconds(u, {}, 0, SignedIn(u, 2));
    ExchangeMovesOn(u, WorldAt(u, run, 1).stores, c, 1000);
    WorldAtStep(u, run, 1);
    SignedSeconds(u, WorldAt(u, run, 1).stores.issued, 1000, c);
    SignedSeconds(u, WorldAt(u, run, 1).stores.issued, 1000, SignedIn(u, 2));
    LostTokenIsAccepted(WorldAt(u, run, 2).stores, Jwt(c, 1), 2000);
    WorldAtStep(u, run, 2);
  }

  function OtherTextAfterResetRun(u: Setup): seq<Request> {
    [Request(0, CreateTokens("u", "user", "f")),
     Request(0, ResetPassword("u")),
     Request(1000, Refresh(Jwt(SignedIn(u, 0), 1)))]
  }

  lemma OtherTextDefeatsRevocation(u: Setup)
    requires !u.strictTexts && u.tokens.refreshTtl >= 1
    ensures ExchangedAfterRevocation(u, OtherTextAfterResetRun(u), 1, 2, "u", SignedIn(u, 0))
  {
    hide AfterRefresh, RefreshAnswer, Signed;
    var (run, c) := (OtherTextAfterResetRun(u), SignedIn(u, 0));
    LoginSigns(u);
    WorldAtStep(u, run, 0);
    WorldAtStep(u, run, 1);
    SignedSeconds(u, {}, 0, c);
    SignedSeconds(u, {}, 0, SignedIn(u, 1));
    LostTokenIsAccepted(WorldAt(u, run, 2).stores, Jwt(c, 1), 1000);
    WorldAtStep(u, run, 2);
  }

  /** Refresh tokens are one-time over all runs exactly when Covers, or when they live too short for two
      exchanges in different seconds. */
  lemma OneTimeUseExactly(u: Setup)
    ensures (forall run, i, j, c :: !ExchangedTwice(u, run, i, j, c)) <==> u.tokens.refreshTtl <= 1 || Covers(u)
  {
    hide ExchangedAt, ValidRun;
    if u.tokens.refreshTtl <= 1 || Covers(u) {
      forall run, i, j, c ensures !ExchangedTwice(u, run, i, j, c) {
        if ExchangedTwice(u, run, i, j, c) {
          if Covers(u) { OneTimeUse(u, run, i, j, c); } else { SecondExchangeIsLater(u, run, i, j, c); }
        }
      }
    } else if 1000 * u.tokens.refreshTtl > BLACKLIST_MS {
      LongLifeReplay(u);
    } else if !u.strictTexts {
      OtherTextReplay(u);
    } else {
      MisplacedLogoutReplay(u);
    }
  }

  lemma ExchangeTakesASecond(u: Setup, run: seq<Request>, j: nat, c: Claims)
    requires ValidRun(u, run) && ExchangedAt(u, run, j, c)
    ensures u.tokens.refreshTtl >= 1
  {
    hide Next, Admissible, SignedOk, RefreshAnswer;
    ValidPrefixes(u, run, j, |run|);
    SignedOkAt(u, run, j, j);
    ExchangeIsLater(u, WorldAt(u, run, j), run[j]);
  }

  /** Revocation is permanent over all runs exactly when Covers, or when tokens cannot be exchanged at all. */
  lemma PermanentRevocationExactly(u: Setup)
    ensures (forall run, i, j, user, c :: !ExchangedAfterRevocation(u, run, i, j, user, c))
            <==> u.tokens.refreshTtl == 0 || Covers(u)
  {
    hide ExchangedAt, ValidRun, RevokesUserAt, HeldAt;
    if u.tokens.refreshTtl == 0 || Covers(u) {
      forall run, i, j, user, c ensures !ExchangedAfterRevocation(u, run, i, j, user, c) {
        if ExchangedAfterRevocation(u, run, i, j, user, c) {
          if Covers(u) { RevocationIsPermanent(u, run, i, j, user, c); } else { ExchangeTakesASecond(u, run, j, c); }
        }
      }
    } else if 1000 * u.tokens.refreshTtl > BLACKLIST_MS {
      LongLifeReplay(u);
    } else if !u.strictTexts {
      OtherTextDefeatsRevocation(u);
    } else {
      MisplacedLogoutReplay(u);
    }
  }
}
