/**
 The session requests of AuthService, each as one atomic step over the three tables.
 */
module Sessions {
  import opened Base
  import opened SessionStores

  const BLACKLIST_MS: nat := 7 * 24 * 60 * 60 * 1000
  const ACCESS_BLACKLIST_MS: nat := 15 * 60 * 1000
  const FAMILY_MAX_AGE_MS: nat := 30 * 24 * 60 * 60 * 1000

  /**
   What callers keep to. strictLogout: no refresh token in logout's access-token position.
   strictTexts: signed tokens are submitted in the text in which they were handed out.
   */
  datatype Setup = Setup(tokens: TokenConfig, strictLogout: bool, strictTexts: bool)

  /** A blacklist row about a refresh token ends no sooner than the token's last second begins, and is
      about the one text in which the token is submitted. */
  predicate Covers(u: Setup) {
    && 1000 * u.tokens.refreshTtl <= BLACKLIST_MS
    && (u.strictLogout || 1000 * u.tokens.refreshTtl <= ACCESS_BLACKLIST_MS)
    && u.strictTexts
  }

  /** A client cannot make up a signature. */
  predicate MaySubmit(u: Setup, issued: Issued, t: Token) {
    t.Jwt? ==> t.claims in issued && (u.strictTexts ==> t == Written(t.claims))
  }

  /** No refresh token was signed for this user and role in the present second. A second signature would
      be the same text, because the payload has no nonce. */
  predicate NewSecond(cfg: TokenConfig, issued: Issued, sub: UserId, role: string, now: nat) {
    Claimed(cfg, sub, role, RefreshKind, now) !in issued
  }

  /** A refresh token is signed at the beginning of its lifetime. */
  ghost predicate SignedOk(u: Setup, issued: Issued, clock: nat) {
    forall c :: IsRefresh(issued, c) ==> u.tokens.refreshTtl <= c.exp && 1000 * (c.exp - u.tokens.refreshTtl) <= clock
  }

  /** The refresh token that a signature in the last second of c yields. */
  function LastSecond(u: Setup, c: Claims): Claims {
    Claims(c.sub, c.role, RefreshKind, c.exp + u.tokens.refreshTtl)
  }

  datatype Stores = Stores(families: Families, blacklist: Blacklist, issued: Issued)

  datatype RefreshOutcome = Blacklisted | ReuseDetected(user: UserId) | Invalid | Accepted

  // ---- What each request answers and leaves behind ----

  ghost function RefreshAnswer(s: Stores, token: Token, now: nat): RefreshOutcome {
    var found := FindByHash(s.families, Sha256(token));
    if IsListed(s.blacklist, Sha256(token), now) then Blacklisted
    else if found.Some? && s.families[found.value].revoked then ReuseDetected(s.families[found.value].userId)
    else if !VerifiesAsRefresh(s.issued, token, now) then Invalid
    else Accepted
  }

  ghost function AfterRefresh(cfg: TokenConfig, s: Stores, token: Token, now: nat): Stores {
    match RefreshAnswer(s, token, now)
    case Blacklisted => s
    case ReuseDetected(user) => s.(families := UserRevoked(s.families, user, now))
    case Invalid => s
    case Accepted =>
      var found := FindByHash(s.families, Sha256(token));
      var (sub, role) := (token.claims.sub, token.claims.role);
      Stores(
        if found.Some?
        then Rotated(s.families, found.value, Sha256(token), Sha256(Written(Claimed(cfg, sub, role, RefreshKind, now))), now)
        else s.families,
        Listed(s.blacklist, Sha256(token), now + BLACKLIST_MS),
        Signed(cfg, s.issued, sub, role, now))
  }

  ghost function AfterLogout(s: Stores, access: Token, refresh: Token, now: nat): Stores {
    var found := FindByHash(s.families, Sha256(refresh));
    s.(blacklist := Listed(Listed(s.blacklist, Sha256(access), now + ACCESS_BLACKLIST_MS),
                           Sha256(refresh), now + BLACKLIST_MS),
       families := if found.Some? then FamilyRevoked(s.families, found.value, now) else s.families)
  }

  ghost function AfterCreateTokens(cfg: TokenConfig, s: Stores, user: UserId, role: string, id: FamilyId, now: nat): Stores {
    s.(issued := Signed(cfg, s.issued, user, role, now),
       families := Inserted(s.families, id, user, Sha256(Written(Claimed(cfg, user, role, RefreshKind, now))), now))
  }

  /** A text that logout lists for the first time is in force for exactly 15 minutes as the access token,
      and for exactly 7 days as the refresh token. */
  lemma LogoutLists(s: Stores, access: Token, refresh: Token, now: nat, t: nat)
    requires access != refresh && Sha256(access) !in s.blacklist && Sha256(refresh) !in s.blacklist
    ensures IsListed(AfterLogout(s, access, refresh, now).blacklist, Sha256(access), t) <==> t < now + 900_000
    ensures IsListed(AfterLogout(s, access, refresh, now).blacklist, Sha256(refresh), t) <==> t < now + 604_800_000
  {
  }

  /** The bounds in seconds: 7 days, and 15 minutes where logout is not strict. */
  lemma CoversInSeconds(u: Setup)
    ensures Covers(u) <==> u.strictTexts && u.tokens.refreshTtl <= if u.strictLogout then 604_800 else 900
  {
  }

  /** A pruning tick leaves exactly the families updated in the last 30 days, as they were. */
  lemma PruningKeepsThirtyDays(f: Families, now: nat, id: FamilyId)
    ensures var f' := FamiliesPruned(f, now - FAMILY_MAX_AGE_MS);
            && (id in f' <==> id in f && now <= f[id].updatedAt + 2_592_000_000)
            && (id in f' ==> f'[id] == f[id])
  {
  }

  ghost predicate UniqueCurrent(f: Families) {
    forall id1, id2 :: id1 in f && id2 in f && f[id1].currentHash == f[id2].currentHash ==> id1 == id2
  }

  ghost predicate NeverCurrent(f: Families, token: Token) {
    forall id :: id in f ==> f[id].currentHash != Sha256(token)
  }

  class AuthService {
    const cfg: TokenConfig
    const families: SqliteRefreshTokenStore
    const blacklist: SqliteTokenBlacklist
    var issued: Issued

    constructor (cfg: TokenConfig)
      ensures Valid() && fresh(families) && fresh(blacklist)
      ensures this.cfg == cfg && State() == Stores(map[], map[], {})
    {
      this.cfg := cfg;
      families := new SqliteRefreshTokenStore();
      blacklist := new SqliteTokenBlacklist();
      issued := {};
    }

    ghost predicate Valid()
      reads families
    {
      UniqueCurrent(families.rows)
    }

    ghost function State(): Stores
      reads this, families, blacklist
    {
      Stores(families.rows, blacklist.rows, issued)
    }

    /** tokenService.sign */
    method Sign(sub: UserId, role: string, now: nat) returns (access: Token, refresh: Token)
      modifies this`issued
      ensures issued == Signed(cfg, old(issued), sub, role, now)
      ensures access == Written(Claimed(cfg, sub, role, AccessKind, now))
      ensures refresh == Written(Claimed(cfg, sub, role, RefreshKind, now))
    {
      var accessClaims := Claims(sub, role, AccessKind, now / 1000 + cfg.accessTtl);
      var refreshClaims := Claims(sub, role, RefreshKind, now / 1000 + cfg.refreshTtl);
      issued := issued + {accessClaims, refreshClaims};
      return Written(accessClaims), Written(refreshClaims);
    }

    /** Register, login, MFA verification and OAuth login all end here. */
    method CreateTokens(user: UserId, role: string, id: FamilyId, now: nat) returns (access: Token, refresh: Token)
      requires Valid() && NeverCurrent(families.rows, Written(Claimed(cfg, user, role, RefreshKind, now)))
      modifies this`issued, families
      ensures Valid() && State() == AfterCreateTokens(cfg, old(State()), user, role, id, now)
      ensures access == Written(Claimed(cfg, user, role, AccessKind, now))
      ensures refresh == Written(Claimed(cfg, user, role, RefreshKind, now))
    {
      access, refresh := Sign(user, role, now);
      families.CreateFamily(id, user, Sha256(refresh), now);
    }

    method Refresh(token: Token, now: nat) returns (r: RefreshOutcome, access: Token, refresh: Token)
      requires Valid()
      requires VerifiesAsRefresh(issued, token, now) ==>
                 NeverCurrent(families.rows, Written(Claimed(cfg, token.claims.sub, token.claims.role, RefreshKind, now)))
      modifies this`issued, families, blacklist
      ensures Valid()
      ensures r == RefreshAnswer(old(State()), token, now)
      ensures State() == AfterRefresh(cfg, old(State()), token, now)
      ensures r == Accepted ==> access == Written(Claimed(cfg, token.claims.sub, token.claims.role, AccessKind, now))
      ensures r == Accepted ==> refresh == Written(Claimed(cfg, token.claims.sub, token.claims.role, RefreshKind, now))
    {
      access, refresh := Text(""), Text("");
      var h := Sha256(token);
      var listed := blacklist.IsBlacklisted(h, now);
      if listed {
        r := Blacklisted;
        return;
      }
      var found := families.FindByTokenHash(h);
      if found.Some? && families.rows[found.value].revoked {
        var user := families.rows[found.value].userId;
        families.RevokeAllForUser(user, now);
        r := ReuseDetected(user);
        return;
      }
      if !VerifiesAsRefresh(issued, token, now) {
        r := Invalid;
        return;
      }
      access, refresh := Sign(token.claims.sub, token.claims.role, now);
      blacklist.Add(h, now + BLACKLIST_MS);
      if found.Some? {
        var rotated := families.Rotate(found.value, h, Sha256(refresh), now);
      }
      r := Accepted;
    }

    method Logout(access: Token, refresh: Token, now: nat)
      requires Valid()
      modifies families, blacklist
      ensures Valid() && State() == AfterLogout(old(State()), access, refresh, now)
    {
      blacklist.Add(Sha256(access), now + ACCESS_BLACKLIST_MS);
      blacklist.Add(Sha256(refresh), now + BLACKLIST_MS);
      var found := families.FindByTokenHash(Sha256(refresh));
      if found.Some? {
        families.RevokeFamily(found.value, now);
      }
    }

    /** The last step of resetPassword, after the reset token named the user. */
    method RevokeSessions(user: UserId, now: nat)
      requires Valid()
      modifies families
      ensures Valid() && State() == old(State()).(families := UserRevoked(old(families.rows), user, now))
    {
      families.RevokeAllForUser(user, now);
    }

    /** One tick of the pruning timer. */
    method PruneSessions(now: nat)
      requires Valid()
      modifies families, blacklist
      ensures Valid()
      ensures State() == old(State()).(blacklist := BlacklistPruned(old(blacklist.rows), now),
                                       families := FamiliesPruned(old(families.rows), now - FAMILY_MAX_AGE_MS))
    {
      var listed := blacklist.Prune(now);
      var families' := families.Prune(FAMILY_MAX_AGE_MS, now);
    }
  }
}
