/**
 The tables behind refresh-token sessions: refresh-token families, the token blacklist
 and the signed tokens. Every operation takes the clock reading (milliseconds) as an argument.
 */
module SessionStores {
  import opened Base

  type UserId = string
  type FamilyId = string

  datatype TokenKind = AccessKind | RefreshKind

  /** The payload of a signed token; exp is in whole seconds, and iat differs from it by the lifetime. */
  datatype Claims = Claims(sub: UserId, role: string, kind: TokenKind, exp: nat)

  /**
   A text that a client submits. The signature is a function of the claims, and verifyJwt compares its
   decoded bytes, so a signed token has many accepted texts: spelling 0 is the one createJwt writes,
   and the other numbers are those that atob reads as the same bytes, with white space or padding say.
   */
  datatype Token = Jwt(claims: Claims, spelling: nat) | Text(text: string)

  /** The text that createJwt writes. */
  function Written(c: Claims): Token {
    Jwt(c, 0)
  }

  /** SHA-256 is taken to be injective, so a digest is represented by the text it digests. */
  datatype TokenHash = Sha256(text: Token)

  datatype Family = Family(userId: UserId, currentHash: TokenHash, revoked: bool, createdAt: nat, updatedAt: nat)

  type Families = map<FamilyId, Family>

  /** token_hash is the primary key; the value is expires_at. */
  type Blacklist = map<TokenHash, nat>

  // ---- Contents of refresh_token_families after each statement ----

  function Inserted(f: Families, id: FamilyId, user: UserId, h: TokenHash, now: nat): Families {
    f[id := Family(user, h, false, now, now)]
  }

  predicate CanRotate(f: Families, id: FamilyId, oldHash: TokenHash) {
    id in f && f[id].currentHash == oldHash
  }

  function Rotated(f: Families, id: FamilyId, oldHash: TokenHash, newHash: TokenHash, now: nat): Families {
    if CanRotate(f, id, oldHash) then f[id := f[id].(currentHash := newHash, updatedAt := now)] else f
  }

  function FamilyRevoked(f: Families, id: FamilyId, now: nat): Families {
    if id in f then f[id := f[id].(revoked := true, updatedAt := now)] else f
  }

  function UserRevoked(f: Families, user: UserId, now: nat): Families {
    map id | id in f :: if f[id].userId == user then f[id].(revoked := true, updatedAt := now) else f[id]
  }

  /** cutoff may be negative early in the life of the clock. */
  function FamiliesPruned(f: Families, cutoff: int): Families {
    map id | id in f && f[id].updatedAt >= cutoff :: f[id]
  }

  ghost predicate IsCurrent(f: Families, id: FamilyId, h: TokenHash) {
    id in f && f[id].currentHash == h
  }

  /** The family whose current hash is h; at most one exists in every reachable state. */
  ghost function FindByHash(f: Families, h: TokenHash): (r: Option<FamilyId>)
    ensures r.Some? ==> IsCurrent(f, r.value, h)
    ensures r.None? ==> forall id :: !IsCurrent(f, id, h)
  {
    if exists id :: IsCurrent(f, id, h) then
      var id :| IsCurrent(f, id, h);
      Some(id)
    else None
  }

  // ---- Contents of token_blacklist after each statement ----

  predicate IsListed(b: Blacklist, h: TokenHash, now: nat) {
    h in b && b[h] > now
  }

  /** INSERT OR IGNORE: an existing row wins, even an expired one. */
  function Listed(b: Blacklist, h: TokenHash, expiresAt: nat): Blacklist {
    if h in b then b else b[h := expiresAt]
  }

  function BlacklistPruned(b: Blacklist, now: nat): Blacklist {
    map h | h in b && b[h] > now :: b[h]
  }

  // ---- Signed tokens ----

  /** Signatures cannot be forged: a token verifies only if its claims were signed here. */
  type Issued = set<Claims>

  datatype TokenConfig = TokenConfig(accessTtl: nat, refreshTtl: nat)

  /** The claims that a signature of this kind gets at this time. */
  function Claimed(cfg: TokenConfig, sub: UserId, role: string, kind: TokenKind, now: nat): Claims {
    Claims(sub, role, kind, now / 1000 + if kind == AccessKind then cfg.accessTtl else cfg.refreshTtl)
  }

  function Signed(cfg: TokenConfig, issued: Issued, sub: UserId, role: string, now: nat): Issued {
    issued + {Claimed(cfg, sub, role, AccessKind, now), Claimed(cfg, sub, role, RefreshKind, now)}
  }

  predicate Verifies(issued: Issued, token: Token, now: nat) {
    token.Jwt? && token.claims in issued && token.claims.exp >= now / 1000
  }

  predicate VerifiesAsRefresh(issued: Issued, token: Token, now: nat) {
    Verifies(issued, token, now) && token.claims.kind == RefreshKind
  }

  predicate IsRefresh(issued: Issued, c: Claims) {
    c in issued && c.kind == RefreshKind
  }

  predicate IsRefreshToken(issued: Issued, t: Token) {
    t.Jwt? && IsRefresh(issued, t.claims)
  }

  /** The first millisecond at which a token with these claims is expired. */
  function ExpiryMs(c: Claims): nat {
    1000 * (c.exp + 1)
  }

  /** The floored-seconds comparison in milliseconds. */
  lemma ExpiryIsFloored(c: Claims, now: nat)
    ensures c.exp >= now / 1000 <==> now < ExpiryMs(c)
  {
    if c.exp >= now / 1000 {
      assert now < 1000 * (now / 1000 + 1);
    }
  }

  /** A pair verifies, each token for the lifetime configured for its kind and through the whole last
      second; an access token never as a refresh token. */
  lemma PairVerifies(cfg: TokenConfig, issued: Issued, sub: UserId, role: string, now: nat, t: nat)
    ensures var s := Signed(cfg, issued, sub, role, now);
            var access := Jwt(Claims(sub, role, AccessKind, now / 1000 + cfg.accessTtl), 0);
            var refresh := Jwt(Claims(sub, role, RefreshKind, now / 1000 + cfg.refreshTtl), 0);
            && (Verifies(s, access, t) <==> t < 1000 * (now / 1000 + cfg.accessTtl + 1))
            && (VerifiesAsRefresh(s, refresh, t) <==> t < 1000 * (now / 1000 + cfg.refreshTtl + 1))
            && !VerifiesAsRefresh(s, access, t)
  {
    ExpiryIsFloored(Claims(sub, role, AccessKind, now / 1000 + cfg.accessTtl), t);
    ExpiryIsFloored(Claims(sub, role, RefreshKind, now / 1000 + cfg.refreshTtl), t);
  }

  /** Pruning the blacklist is invisible from then on, and leaves no row that has ended. */
  lemma BlacklistPruningIsInvisible(b: Blacklist, now: nat, t: nat)
    requires now <= t
    ensures forall h :: IsListed(BlacklistPruned(b, now), h, t) <==> h in b && t < b[h]
    ensures forall h :: h in BlacklistPruned(b, now) ==> now < b[h]
  {
  }

  // ---- The stores as objects ----

  class SqliteRefreshTokenStore {
    var rows: Families

    constructor ()
      ensures rows == map[]
    {
      rows := map[];
    }

    method CreateFamily(id: FamilyId, user: UserId, h: TokenHash, now: nat)
      modifies this
      ensures rows == Inserted(old(rows), id, user, h, now)
    {
      rows := rows[id := Family(user, h, false, now, now)];
    }

    method Rotate(id: FamilyId, oldHash: TokenHash, newHash: TokenHash, now: nat) returns (ok: bool)
      modifies this
      ensures rows == Rotated(old(rows), id, oldHash, newHash, now)
      ensures ok == CanRotate(old(rows), id, oldHash)
    {
      ok := id in rows && rows[id].currentHash == oldHash;
      if ok {
        rows := rows[id := rows[id].(currentHash := newHash, updatedAt := now)];
      }
    }

    method FindByTokenHash(h: TokenHash) returns (r: Option<FamilyId>)
      ensures r.Some? ==> IsCurrent(rows, r.value, h)
      ensures r.None? ==> forall id :: !IsCurrent(rows, id, h)
    {
      if id :| id in rows && rows[id].currentHash == h {
        r := Some(id);
      } else {
        r := None;
      }
    }

    method RevokeFamily(id: FamilyId, now: nat)
      modifies this
      ensures rows == FamilyRevoked(old(rows), id, now)
    {
      if id in rows {
        rows := rows[id := rows[id].(revoked := true, updatedAt := now)];
      }
    }

    method RevokeAllForUser(user: UserId, now: nat)
      modifies this
      ensures rows == UserRevoked(old(rows), user, now)
    {
      rows := map id | id in rows ::
        if rows[id].userId == user then rows[id].(revoked := true, updatedAt := now) else rows[id];
    }

    method Prune(maxAgeMs: nat, now: nat) returns (changes: nat)
      modifies this
      ensures rows == FamiliesPruned(old(rows), now - maxAgeMs)
      ensures changes == |old(rows).Keys - rows.Keys|
    {
      var kept := map id | id in rows && rows[id].updatedAt >= now - maxAgeMs :: rows[id];
      changes := |rows.Keys - kept.Keys|;
      rows := kept;
    }
  }

  class SqliteTokenBlacklist {
    var rows: Blacklist

    constructor ()
      ensures rows == map[]
    {
      rows := map[];
    }

    method Add(h: TokenHash, expiresAt: nat)
      modifies this
      ensures rows == Listed(old(rows), h, expiresAt)
    {
      if h !in rows {
        rows := rows[h := expiresAt];
      }
    }

    method IsBlacklisted(h: TokenHash, now: nat) returns (r: bool)
      ensures r == IsListed(rows, h, now)
    {
      r := h in rows && rows[h] > now;
    }

    method Prune(now: nat) returns (changes: nat)
      modifies this
      ensures rows == BlacklistPruned(old(rows), now)
      ensures changes == |old(rows).Keys - rows.Keys|
    {
      var kept := map h | h in rows && rows[h] > now :: rows[h];
      changes := |rows.Keys - kept.Keys|;
      rows := kept;
    }
  }
}
