/**
 The same session requests cut at every await: each event is one store call or one signature,
 and the calls of any number of requests may interleave in any order.
 */
module SessionInterleaving {
  import opened Base
  import opened SessionStores
  import opened Sessions

  /** Where a request stands between two of its store calls. */
  datatype Stage =
    | Checked(token: Token)                                                        // refresh: not blacklisted
    | Located(token: Token, family: Option<FamilyId>)                              // refresh: no revoked family
    | Reused(user: UserId)                                                         // refresh: revoked family found
    | Exchanged(token: Token, family: Option<FamilyId>, successor: Claims)         // refresh: new pair signed
    | Recorded(token: Token, family: Option<FamilyId>, successor: Claims)          // refresh: old token blacklisted
    | SessionSigned(user: UserId, successor: Claims)                               // createTokens: family not stored yet
    | Finished

  type RequestId = nat

  datatype Action =
    | Check(token: Token)
    | Locate
    | RevokeReused
    | Exchange
    | Record
    | Rotate
    | SignSession(user: UserId, role: string)
    | StoreSession(id: FamilyId)
    | ListLogout(text: Token, keepMs: nat)      // one of logout's two blacklist rows
    | RevokeOne(family: FamilyId)               // logout
    | RevokeUser(revoked: UserId)               // resetPassword
    | PruneBlacklist
    | PruneFamilies

  datatype Event = Event(now: nat, request: RequestId, action: Action)

  /** lineage records, for every family ever stored, its current hashes in order. */
  datatype World = World(
    clock: nat, families: Families, blacklist: Blacklist, issued: Issued,
    stages: map<RequestId, Stage>, lineage: map<FamilyId, seq<TokenHash>>)

  const START := World(0, map[], map[], {}, map[], map[])

  /** The clock never goes back, request and family ids are new, and a user's signatures fall in
      different seconds. */
  predicate Enabled(u: Setup, w: World, e: Event) {
    && e.now >= w.clock
    && match e.action
       case Check(token) => e.request !in w.stages && MaySubmit(u, w.issued, token)
       case Locate => e.request in w.stages && w.stages[e.request].Checked?
       case RevokeReused => e.request in w.stages && w.stages[e.request].Reused?
       case Exchange =>
         && e.request in w.stages && w.stages[e.request].Located?
         && var t := w.stages[e.request].token;
            VerifiesAsRefresh(w.issued, t, e.now) ==> NewSecond(u.tokens, w.issued, t.claims.sub, t.claims.role, e.now)
       case Record => e.request in w.stages && w.stages[e.request].Exchanged?
       case Rotate => e.request in w.stages && w.stages[e.request].Recorded?
       case SignSession(user, role) => e.request !in w.stages && NewSecond(u.tokens, w.issued, user, role, e.now)
       case StoreSession(id) => e.request in w.stages && w.stages[e.request].SessionSigned? && id !in w.lineage
       case ListLogout(text, keepMs) =>
         && MaySubmit(u, w.issued, text)
         && (keepMs == BLACKLIST_MS || keepMs == ACCESS_BLACKLIST_MS)
         && (u.strictLogout && IsRefreshToken(w.issued, text) ==> keepMs == BLACKLIST_MS)
       case _ => true
  }

  /** The compare-and-swap of rotate; its result is not looked at by refresh. */
  predicate RotationSucceeds(w: World, e: Event) {
    && e.action.Rotate? && e.request in w.stages && w.stages[e.request].Recorded?
    && var s := w.stages[e.request];
       s.family.Some? && CanRotate(w.families, s.family.value, Sha256(s.token))
  }

  // ---- What each event changes ----

  /** Logout, password reset and pruning are not followed through their stages. */
  predicate Staged(a: Action) {
    !(a.ListLogout? || a.RevokeOne? || a.RevokeUser? || a.PruneBlacklist? || a.PruneFamilies?)
  }

  ghost function NextStage(u: Setup, w: World, e: Event): Stage
    requires Enabled(u, w, e) && Staged(e.action)
  {
    match e.action
    case Check(token) =>
      if IsListed(w.blacklist, Sha256(token), e.now) then Finished else Checked(token)
    case Locate =>
      var token := w.stages[e.request].token;
      var found := FindByHash(w.families, Sha256(token));
      if found.Some? && w.families[found.value].revoked
      then Reused(w.families[found.value].userId) else Located(token, found)
    case RevokeReused => Finished
    case Exchange =>
      var s := w.stages[e.request];
      if VerifiesAsRefresh(w.issued, s.token, e.now)
      then Exchanged(s.token, s.family, Claimed(u.tokens, s.token.claims.sub, s.token.claims.role, RefreshKind, e.now))
      else Finished
    case Record =>
      var s := w.stages[e.request];
      Recorded(s.token, s.family, s.successor)
    case Rotate => Finished
    case SignSession(user, role) => SessionSigned(user, Claimed(u.tokens, user, role, RefreshKind, e.now))
    case StoreSession(_) => Finished
  }

  ghost function NextFamilies(u: Setup, w: World, e: Event): Families
    requires Enabled(u, w, e)
  {
    match e.action
    case RevokeReused => UserRevoked(w.families, w.stages[e.request].user, e.now)
    case Rotate =>
      if RotationSucceeds(w, e) then
        var s := w.stages[e.request];
        Rotated(w.families, s.family.value, Sha256(s.token), Sha256(Written(s.successor)), e.now)
      else w.families
    case StoreSession(id) =>
      var s := w.stages[e.request];
      Inserted(w.families, id, s.user, Sha256(Written(s.successor)), e.now)
    case RevokeOne(family) => FamilyRevoked(w.families, family, e.now)
    case RevokeUser(user) => UserRevoked(w.families, user, e.now)
    case PruneFamilies => FamiliesPruned(w.families, e.now - FAMILY_MAX_AGE_MS)
    case _ => w.families
  }

  ghost function NextLineage(u: Setup, w: World, e: Event): map<FamilyId, seq<TokenHash>>
    requires Enabled(u, w, e)
  {
    match e.action
    case Rotate =>
      if RotationSucceeds(w, e) && w.stages[e.request].family.value in w.lineage then
        var s := w.stages[e.request];
        w.lineage[s.family.value := w.lineage[s.family.value] + [Sha256(Written(s.successor))]]
      else w.lineage
    case StoreSession(id) => w.lineage[id := [Sha256(Written(w.stages[e.request].successor))]]
    case _ => w.lineage
  }

  function NextBlacklist(u: Setup, w: World, e: Event): Blacklist
    requires Enabled(u, w, e)
  {
    match e.action
    case Record => Listed(w.blacklist, Sha256(w.stages[e.request].token), e.now + BLACKLIST_MS)
    case ListLogout(text, keepMs) => Listed(w.blacklist, Sha256(text), e.now + keepMs)
    case PruneBlacklist => BlacklistPruned(w.blacklist, e.now)
    case _ => w.blacklist
  }

  function NextIssued(u: Setup, w: World, e: Event): Issued
    requires Enabled(u, w, e)
  {
    match e.action
    case Exchange =>
      var t := w.stages[e.request].token;
      if VerifiesAsRefresh(w.issued, t, e.now)
      then Signed(u.tokens, w.issued, t.claims.sub, t.claims.role, e.now) else w.issued
    case SignSession(user, role) => Signed(u.tokens, w.issued, user, role, e.now)
    case _ => w.issued
  }

  ghost function Next(u: Setup, w: World, e: Event): World
    requires Enabled(u, w, e)
  {
    World(e.now, NextFamilies(u, w, e), NextBlacklist(u, w, e), NextIssued(u, w, e),
          if Staged(e.action) then w.stages[e.request := NextStage(u, w, e)] else w.stages,
          NextLineage(u, w, e))
  }

  // ---- Runs ----

  /** The world before event k, as long as the events before it were enabled. */
  ghost function WorldAt(u: Setup, run: seq<Event>, k: nat): Option<World>
    requires k <= |run|
  {
    if k == 0 then Some(START) else
      var before := WorldAt(u, run, k - 1);
      if before.Some? && Enabled(u, before.value, run[k - 1]) then Some(Next(u, before.value, run[k - 1])) else None
  }

  ghost predicate Reaches(u: Setup, run: seq<Event>, k: nat, w: World) {
    k <= |run| && WorldAt(u, run, k) == Some(w)
  }

  // ---- Lineages ----

  predicate Distinct<T(==)>(s: seq<T>) {
    forall i, j :: 0 <= i < j < |s| ==> s[i] != s[j]
  }

  /** The new refresh token a request has signed but not yet stored, if any. */
  function Pending(s: Stage): Option<Claims> {
    if s.Exchanged? || s.Recorded? || s.SessionSigned? then Some(s.successor) else None
  }

  predicate NeverStored(w: World, c: Claims) {
    forall id :: id in w.lineage ==> Sha256(Written(c)) !in w.lineage[id]
  }

  /** The hashes are those of signed refresh tokens as they were written. */
  predicate FamilyLineage(w: World, id: FamilyId) {
    id in w.lineage ==>
      && w.lineage[id] != []
      && Distinct(w.lineage[id])
      && (id in w.families ==> w.lineage[id][|w.lineage[id]| - 1] == w.families[id].currentHash)
      && (forall k :: 0 <= k < |w.lineage[id]| ==> IsWritten(w.issued, w.lineage[id][k]))
  }

  predicate IsWritten(issued: Issued, h: TokenHash) {
    h.text.Jwt? && h.text == Written(h.text.claims) && IsRefresh(issued, h.text.claims)
  }

  predicate PendingOk(w: World, r: RequestId) {
    r in w.stages && Pending(w.stages[r]).Some? ==>
      && IsRefresh(w.issued, Pending(w.stages[r]).value)
      && NeverStored(w, Pending(w.stages[r]).value)
      && forall r' :: r' in w.stages && Pending(w.stages[r']) == Pending(w.stages[r]) ==> r' == r
  }

  ghost predicate LineageInv(w: World) {
    && w.families.Keys <= w.lineage.Keys
    && (forall id :: FamilyLineage(w, id))
    && (forall r :: PendingOk(w, r))
  }

  lemma PendingStep(u: Setup, w: World, e: Event, r: RequestId)
    requires LineageInv(w) && Enabled(u, w, e)
    ensures PendingOk(Next(u, w, e), r)
  {
    hide NextFamilies, NextBlacklist;
    var w' := Next(u, w, e);
    assert PendingOk(w, r) && PendingOk(w, e.request);
    if r in w'.stages && Pending(w'.stages[r]).Some? {
      var c := Pending(w'.stages[r]).value;
      forall r' | r' in w'.stages && Pending(w'.stages[r']) == Some(c) ensures r' == r {
        assert PendingOk(w, r');
      }
      forall id | id in w'.lineage ensures Sha256(Written(c)) !in w'.lineage[id] {
        assert FamilyLineage(w, id);
      }
    }
  }

  lemma LineageStep(u: Setup, w: World, e: Event)
    requires LineageInv(w) && Enabled(u, w, e)
    ensures LineageInv(Next(u, w, e))
  {
    var w' := Next(u, w, e);
    forall id ensures FamilyLineage(w', id) {
      assert FamilyLineage(w, id) && PendingOk(w, e.request);
    }
    forall r ensures PendingOk(w', r) {
      PendingStep(u, w, e, r);
    }
  }

  lemma {:induction false} LineageAt(u: Setup, run: seq<Event>, k: nat, w: World)
    requires Reaches(u, run, k, w)
    ensures LineageInv(w)
  {
    hide Enabled, Next, LineageInv;
    if k == 0 {
      LineageStart();
    } else {
      var before := WorldAt(u, run, k - 1).value;
      LineageAt(u, run, k - 1, before);
      LineageStep(u, before, run[k - 1]);
    }
  }

  lemma LineageStart()
    ensures LineageInv(START)
  {
  }

  /** h was a current hash of the family, but no longer is its last one. */
  ghost predicate Superseded(w: World, id: FamilyId, h: TokenHash) {
    id in w.lineage && exists p :: 0 <= p < |w.lineage[id]| - 1 && w.lineage[id][p] == h
  }

  lemma SupersededStep(u: Setup, w: World, e: Event, id: FamilyId, h: TokenHash)
    requires Enabled(u, w, e) && Superseded(w, id, h)
    ensures Superseded(Next(u, w, e), id, h)
  {
    var w' := Next(u, w, e);
    var p :| 0 <= p < |w.lineage[id]| - 1 && w.lineage[id][p] == h;
    assert w'.lineage[id][p] == h;
  }

  lemma {:induction false} SupersededForever(u: Setup, run: seq<Event>, i: nat, j: nat, w: World, w': World, id: FamilyId, h: TokenHash)
    requires i <= j && Reaches(u, run, i, w) && Reaches(u, run, j, w') && Superseded(w, id, h)
    ensures Superseded(w', id, h)
  {
    hide Enabled, Next, Superseded;
    if i < j {
      var before := WorldAt(u, run, j - 1).value;
      SupersededForever(u, run, i, j - 1, w, before, id, h);
      SupersededStep(u, before, run[j - 1], id, h);
    }
  }

  /** Event k makes the family's current hash move on from h. */
  ghost predicate RotatesAt(u: Setup, run: seq<Event>, k: nat, id: FamilyId, h: TokenHash) {
    k < |run| &&
    var w := WorldAt(u, run, k);
    w.Some? && Enabled(u, w.value, run[k]) && RotationSucceeds(w.value, run[k]) &&
    var s := w.value.stages[run[k].request];
    s.family == Some(id) && Sha256(s.token) == h
  }

  lemma RotationSupersedes(u: Setup, w: World, e: Event)
    requires LineageInv(w) && Enabled(u, w, e) && RotationSucceeds(w, e)
    ensures var s := w.stages[e.request];
            Superseded(Next(u, w, e), s.family.value, Sha256(s.token))
  {
    var s := w.stages[e.request];
    var id := s.family.value;
    assert FamilyLineage(w, id);
    var p := |w.lineage[id]| - 1;
    assert Next(u, w, e).lineage[id][p] == Sha256(s.token);
  }

  lemma SupersededCannotRotate(w: World, id: FamilyId, h: TokenHash)
    requires LineageInv(w) && Superseded(w, id, h)
    ensures !CanRotate(w.families, id, h)
  {
    assert FamilyLineage(w, id);
  }

  /** However requests interleave, a family moves on from each of its hashes at most once:
      the compare-and-swap makes its current hashes one linear chain. */
  lemma RotatesOnce(u: Setup, run: seq<Event>, i: nat, j: nat, id: FamilyId, h: TokenHash)
    requires RotatesAt(u, run, i, id, h) && RotatesAt(u, run, j, id, h)
    ensures i == j
  {
    hide Enabled, Next, LineageInv, Superseded;
    if i != j {
      var (a, b) := if i < j then (i, j) else (j, i);
      var (w, w') := (WorldAt(u, run, a).value, WorldAt(u, run, b).value);
      LineageAt(u, run, a, w);
      LineageAt(u, run, b, w');
      RotationSupersedes(u, w, run[a]);
      SupersededForever(u, run, a + 1, b, Next(u, w, run[a]), w', id, h);
      SupersededCannotRotate(w', id, h);
    }
  }

  // ---- Revocation ----

  /** The family was stored once and is now revoked or deleted. */
  predicate Closed(w: World, id: FamilyId) {
    id in w.lineage && (id in w.families ==> w.families[id].revoked)
  }

  lemma ClosedStep(u: Setup, w: World, e: Event, id: FamilyId)
    requires Enabled(u, w, e) && Closed(w, id)
    ensures Closed(Next(u, w, e), id)
  {
  }

  /** No event, not even a rotation that began before the revocation, reopens a closed family. */
  lemma {:induction false} ClosedForever(u: Setup, run: seq<Event>, i: nat, j: nat, w: World, w': World, id: FamilyId)
    requires i <= j && Reaches(u, run, i, w) && Reaches(u, run, j, w') && Closed(w, id)
    ensures Closed(w', id)
  {
    hide Enabled, Next, Closed;
    if i < j {
      var before := WorldAt(u, run, j - 1).value;
      ClosedForever(u, run, i, j - 1, w, before, id);
      ClosedStep(u, before, run[j - 1], id);
    }
  }

  // ---- Exchanges ----

  /**
   Tokens under way were submitted, and the ones past the signature check are refresh tokens of the
   successor's user and role that were signed in an earlier second.
   */
  predicate StageOk(u: Setup, w: World, r: RequestId) {
    r in w.stages ==>
      match w.stages[r]
      case Checked(t) => MaySubmit(u, w.issued, t)
      case Located(t, _) => MaySubmit(u, w.issued, t)
      case Exchanged(t, _, n) => MaySubmit(u, w.issued, t) && Succeeds(w.issued, t, n)
      case Recorded(t, _, n) => MaySubmit(u, w.issued, t) && Succeeds(w.issued, t, n)
      case SessionSigned(user, n) => IsRefresh(w.issued, n) && n.sub == user
      case _ => true
  }

  predicate Succeeds(issued: Issued, t: Token, n: Claims) {
    && IsRefreshToken(issued, t) && IsRefresh(issued, n)
    && n.sub == t.claims.sub && n.role == t.claims.role && t.claims.exp < n.exp
  }

  ghost predicate TokenInv(u: Setup, w: World) {
    && SignedOk(u, w.issued, w.clock)
    && (forall r :: StageOk(u, w, r))
  }

  lemma SignedStep(u: Setup, w: World, e: Event)
    requires SignedOk(u, w.issued, w.clock) && Enabled(u, w, e)
    ensures SignedOk(u, Next(u, w, e).issued, e.now) && w.issued <= Next(u, w, e).issued
  {
    hide NextFamilies, NextBlacklist, NextLineage, NextStage;
  }

  lemma StageStep(u: Setup, w: World, e: Event, r: RequestId)
    requires TokenInv(u, w) && Enabled(u, w, e)
    ensures StageOk(u, Next(u, w, e), r)
  {
    hide NextFamilies, NextBlacklist, NextLineage;
    assert StageOk(u, w, r);
  }

  lemma TokenInvStep(u: Setup, w: World, e: Event)
    requires TokenInv(u, w) && Enabled(u, w, e)
    ensures TokenInv(u, Next(u, w, e))
  {
    SignedStep(u, w, e);
    forall r ensures StageOk(u, Next(u, w, e), r) { StageStep(u, w, e, r); }
  }

  lemma TokenInvStart(u: Setup)
    ensures TokenInv(u, START)
  {
  }

  lemma {:induction false} TokenInvAt(u: Setup, run: seq<Event>, k: nat, w: World)
    requires Reaches(u, run, k, w)
    ensures TokenInv(u, w)
  {
    hide Enabled, Next, TokenInv;
    if k == 0 {
      TokenInvStart(u);
    } else {
      var before := WorldAt(u, run, k - 1).value;
      TokenInvAt(u, run, k - 1, before);
      TokenInvStep(u, before, run[k - 1]);
    }
  }

  /** Not expired, and not down to a last second that is used up. */
  predicate HasTime(u: Setup, w: World, c: Claims) {
    w.clock < ExpiryMs(c) && LastSecond(u, c) !in w.issued
  }

  /** The blacklist row about this text stays in force until the token expires. */
  predicate ListedToEnd(w: World, t: Token)
    requires t.Jwt?
  {
    Sha256(t) in w.blacklist && w.blacklist[Sha256(t)] >= ExpiryMs(t.claims)
  }

  lemma ListedStaysListed(u: Setup, w: World, e: Event, t: Token)
    requires Enabled(u, w, e) && t.Jwt? && ListedToEnd(w, t) && e.now < ExpiryMs(t.claims)
    ensures ListedToEnd(Next(u, w, e), t)
    ensures e.action == Check(t) ==> Next(u, w, e).stages[e.request] == Finished
  {
    hide NextFamilies, NextLineage, NextIssued;
  }

  lemma TimeRunsOut(u: Setup, w: World, e: Event, c: Claims)
    requires SignedOk(u, w.issued, w.clock) && Enabled(u, w, e) && HasTime(u, Next(u, w, e), c)
    ensures HasTime(u, w, c) && e.now < ExpiryMs(c)
  {
    SignedStep(u, w, e);
  }

  /** Past the blacklist check for t, but not yet past the signature check. */
  predicate AboutToExchange(w: World, r: RequestId, t: Token) {
    r in w.stages && (w.stages[r].Checked? || w.stages[r].Located?) && w.stages[r].token == t
  }

  /** The requests past the blacklist check for t that have not exchanged it yet. */
  function Early(w: World, t: Token): set<RequestId> {
    set r | r in w.stages && AboutToExchange(w, r, t)
  }

  /** c has no time left, or is listed to its end and only requests in early can still exchange it. */
  ghost predicate Shut(u: Setup, w: World, c: Claims, early: set<RequestId>) {
    HasTime(u, w, c) ==> ListedToEnd(w, Written(c)) && Early(w, Written(c)) <= early
  }

  lemma ShutStep(u: Setup, w: World, e: Event, c: Claims, early: set<RequestId>)
    requires TokenInv(u, w) && Enabled(u, w, e) && Shut(u, w, c, early)
    ensures Shut(u, Next(u, w, e), c, early)
  {
    var (w', t) := (Next(u, w, e), Written(c));
    if HasTime(u, w', c) {
      TimeRunsOut(u, w, e, c);
      ListedStaysListed(u, w, e, t);
      hide NextFamilies, NextBlacklist, NextLineage, NextIssued, TokenInv;
      forall r | AboutToExchange(w', r, t) ensures r in early {
        assert r in Early(w, t) || e.action == Check(t);
      }
    }
  }

  lemma {:induction false} ShutForever(u: Setup, run: seq<Event>, i: nat, j: nat, w: World, w': World, c: Claims, early: set<RequestId>)
    requires i <= j && Reaches(u, run, i, w) && Reaches(u, run, j, w') && Shut(u, w, c, early)
    ensures Shut(u, w', c, early)
  {
    hide Enabled, Next, Shut, TokenInv;
    if i < j {
      var before := WorldAt(u, run, j - 1).value;
      ShutForever(u, run, i, j - 1, w, before, c, early);
      TokenInvAt(u, run, j - 1, before);
      ShutStep(u, before, run[j - 1], c, early);
    }
  }

  /** Event k blacklists a text of the refresh token c after a request exchanged it. */
  ghost predicate RecordsAt(u: Setup, run: seq<Event>, k: nat, c: Claims) {
    k < |run| && run[k].action.Record? &&
    var w := WorldAt(u, run, k);
    w.Some? && Enabled(u, w.value, run[k]) &&
    var t := w.value.stages[run[k].request].token;
    t.Jwt? && t.claims == c
  }

  /** Event k exchanges the refresh token c, in whatever text, for a new pair. */
  ghost predicate ExchangesAt(u: Setup, run: seq<Event>, k: nat, c: Claims) {
    k < |run| && run[k].action.Exchange? &&
    var w := WorldAt(u, run, k);
    w.Some? && Enabled(u, w.value, run[k]) &&
    var t := w.value.stages[run[k].request].token;
    VerifiesAsRefresh(w.value.issued, t, run[k].now) && t.claims == c
  }

  /** An exchange was in a later second than the signature, so the row written after it outlives the
      token, unless there was a row already. */
  lemma RecordShuts(u: Setup, w: World, e: Event, c: Claims)
    requires u.strictTexts && 1000 * u.tokens.refreshTtl <= BLACKLIST_MS
    requires TokenInv(u, w) && Enabled(u, w, e) && e.action.Record?
    requires w.stages[e.request].token.Jwt? && w.stages[e.request].token.claims == c
    requires Sha256(Written(c)) in w.blacklist ==> ListedToEnd(w, Written(c))
    ensures Shut(u, Next(u, w, e), c, Early(w, Written(c)))
  {
    assert StageOk(u, w, e.request);
    assert SignedOk(u, w.issued, w.clock) && IsRefresh(w.issued, w.stages[e.request].successor);
    hide NextFamilies, NextLineage, NextIssued, TokenInv;
  }

  lemma ExchangeTakesTime(u: Setup, w: World, e: Event)
    requires TokenInv(u, w) && Enabled(u, w, e) && e.action.Exchange?
    requires VerifiesAsRefresh(w.issued, w.stages[e.request].token, e.now)
    ensures HasTime(u, w, w.stages[e.request].token.claims)
    ensures u.strictTexts ==> w.stages[e.request].token == Written(w.stages[e.request].token.claims)
    ensures w.clock <= e.now < ExpiryMs(w.stages[e.request].token.claims)
  {
    var c := w.stages[e.request].token.claims;
    ExpiryIsFloored(c, e.now);
    assert StageOk(u, w, e.request);
    assert IsRefresh(w.issued, LastSecond(u, c)) ==> 1000 * c.exp <= w.clock;
  }

  /** Once the blacklisting of an exchanged token takes effect, only a request that was past the blacklist
      check for it at that moment can still exchange it: a second exchange needs two overlapping
      refreshes, or a logout that had listed the token before, for a moment less than its lifetime. */
  lemma SecondExchangeOverlaps(u: Setup, run: seq<Event>, i: nat, j: nat, c: Claims)
    requires u.strictTexts && 1000 * u.tokens.refreshTtl <= BLACKLIST_MS
    requires RecordsAt(u, run, i, c) && ExchangesAt(u, run, j, c) && i < j
    ensures var w := WorldAt(u, run, i).value;
            || AboutToExchange(w, run[j].request, Written(c))
            || (Sha256(Written(c)) in w.blacklist && !ListedToEnd(w, Written(c)))
  {
    hide Enabled, Next, TokenInv, Shut, HasTime;
    var (w, w', t) := (WorldAt(u, run, i).value, WorldAt(u, run, j).value, Written(c));
    if Sha256(t) in w.blacklist ==> ListedToEnd(w, t) {
      TokenInvAt(u, run, i, w);
      TokenInvAt(u, run, j, w');
      RecordShuts(u, w, run[i], c);
      ShutForever(u, run, i + 1, j, Next(u, w, run[i]), w', c, Early(w, t));
      ExchangeTakesTime(u, w', run[j]);
      ShutKeepsOthersOut(u, w', run[j], c, Early(w, t));
    }
  }

  lemma ShutKeepsOthersOut(u: Setup, w: World, e: Event, c: Claims, early: set<RequestId>)
    requires Enabled(u, w, e) && e.action.Exchange? && w.stages[e.request].token == Written(c)
    requires HasTime(u, w, c) && Shut(u, w, c, early)
    ensures e.request in early
  {
    assert e.request in Early(w, Written(c));
  }

  // ---- Overlapping refreshes ----

  /** Two refreshes that have both looked up a token can both exchange it, in different seconds: with
      SecondExchangeOverlaps, overlapping is what a second exchange takes. */
  lemma OverlapExchangesTwice(u: Setup, w: World, a: Event, b: Event, t: Token)
    requires a.action.Exchange? && b.action.Exchange? && a.request != b.request && a.now / 1000 < b.now / 1000
    requires Enabled(u, w, a) && Enabled(u, w, b)
    requires w.stages[a.request].token == t == w.stages[b.request].token && VerifiesAsRefresh(w.issued, t, b.now)
    ensures Enabled(u, Next(u, w, a), b)
    ensures VerifiesAsRefresh(w.issued, t, a.now) && VerifiesAsRefresh(Next(u, w, a).issued, t, b.now)
  {
  }

  /** Of two refreshes of one family's token, the first to rotate makes the other's rotation fail. */
  lemma OneRotationFails(u: Setup, w: World, a: Event, b: Event)
    requires LineageInv(w) && Enabled(u, w, a) && RotationSucceeds(w, a) && a.request != b.request
    requires b.action.Rotate? && Enabled(u, w, b)
    requires w.stages[b.request].token == w.stages[a.request].token
    requires w.stages[b.request].family == w.stages[a.request].family
    ensures !RotationSucceeds(Next(u, w, a), b)
  {
    RotationSupersedes(u, w, a);
    LineageStep(u, w, a);
    SupersededCannotRotate(Next(u, w, a), w.stages[a.request].family.value, Sha256(w.stages[a.request].token));
  }

  /** No family has or had c, and no request is about to store it. */
  ghost predicate Homeless(w: World, c: Claims) {
    c in w.issued && NeverStored(w, c) && forall r :: r in w.stages ==> Pending(w.stages[r]) != Some(c)
  }

  lemma FailedRotationLeavesHomeless(u: Setup, w: World, e: Event)
    requires LineageInv(w) && Enabled(u, w, e) && e.action.Rotate? && !RotationSucceeds(w, e)
    ensures Homeless(Next(u, w, e), w.stages[e.request].successor)
  {
    assert PendingOk(w, e.request);
  }

  lemma HomelessStep(u: Setup, w: World, e: Event, c: Claims)
    requires Enabled(u, w, e) && Homeless(w, c)
    ensures Homeless(Next(u, w, e), c)
  {
    hide NextFamilies, NextBlacklist;
  }

  lemma {:induction false} HomelessForever(u: Setup, run: seq<Event>, i: nat, j: nat, w: World, w': World, c: Claims)
    requires i <= j && Reaches(u, run, i, w) && Reaches(u, run, j, w') && Homeless(w, c)
    ensures Homeless(w', c)
  {
    hide Enabled, Next, Homeless;
    if i < j {
      var before := WorldAt(u, run, j - 1).value;
      HomelessForever(u, run, i, j - 1, w, before, c);
      HomelessStep(u, before, run[j - 1], c);
    }
  }

  /** The pair signed by the losing refresh stays out of every family for good, so revoking the user's
      sessions, whenever it happens, leaves its refresh token outside the revoked families. */
  lemma LoserEscapesRevocation(u: Setup, run: seq<Event>, i: nat, j: nat, w: World, w': World, id: FamilyId)
    requires Reaches(u, run, i, w) && Reaches(u, run, j, w') && i < j
    requires Enabled(u, w, run[i]) && run[i].action.Rotate? && !RotationSucceeds(w, run[i])
    requires id in w'.families
    ensures w'.families[id].currentHash != Sha256(Written(w.stages[run[i].request].successor))
  {
    hide Next, LineageInv, Homeless;
    LineageAt(u, run, i, w);
    FailedRotationLeavesHomeless(u, w, run[i]);
    HomelessForever(u, run, i + 1, j, Next(u, w, run[i]), w', w.stages[run[i].request].successor);
    LineageAt(u, run, j, w');
    HomelessIsNotCurrent(w', w.stages[run[i].request].successor, id);
  }

  lemma HomelessIsNotCurrent(w: World, c: Claims, id: FamilyId)
    requires LineageInv(w) && Homeless(w, c) && id in w.families
    ensures w.families[id].currentHash != Sha256(Written(c))
  {
    assert FamilyLineage(w, id);
  }

  /** Nor is a text other than the written one the current token of any family. */
  lemma OtherTextIsNotCurrent(w: World, t: Token, id: FamilyId)
    requires LineageInv(w) && id in w.families && !(t.Jwt? && t == Written(t.claims))
    ensures w.families[id].currentHash != Sha256(t)
  {
    assert FamilyLineage(w, id);
    assert IsWritten(w.issued, w.lineage[id][|w.lineage[id]| - 1]);
  }

  /** A refresh of a token in no family, or in another text, passes the family check whatever has been
      revoked. */
  lemma HomelessIsExchanged(u: Setup, w: World, e: Event, t: Token)
    requires LineageInv(w) && Enabled(u, w, e) && e.action.Locate? && w.stages[e.request].token == t && t.Jwt?
    requires Homeless(w, t.claims) || t != Written(t.claims)
    ensures Next(u, w, e).stages[e.request] == Located(t, None)
  {
    forall id ensures !IsCurrent(w.families, id, Sha256(t)) {
      if id in w.families {
        if t == Written(t.claims) { HomelessIsNotCurrent(w, t.claims, id); } else { OtherTextIsNotCurrent(w, t, id); }
      }
    }
  }
}
