/** One-time verification tokens: the SQLite and Postgres repositories, and the service over them. */
module VerificationTokens {
  import opened Base

  datatype Kind = EmailVerification | PasswordReset

  /** SHA-256 is taken to be injective. */
  datatype TokenHash = Sha256(text: string)

  datatype Row = Row(userId: string, kind: Kind, expiresAt: int, usedAt: Option<int>)

  /** The table by its token_hash column, which is unique. */
  type Rows = map<TokenHash, Row>

  datatype Reason = Invalid | AlreadyUsed | Expired | NotFound | Internal

  /** Issued carries the raw token that create hands out. */
  datatype Answer = Done | Issued(raw: string) | Verified(userId: string) | Refused(reason: Reason)

  predicate SameOutcome(a: Answer, b: Answer) {
    a == b || (a.Refused? && b.Refused?)
  }

  const EMAIL_VERIFY_TTL: int := 24 * 60 * 60 * 1000
  const PASSWORD_RESET_TTL: int := 60 * 60 * 1000

  // ---- The operations on the table ----

  predicate BelongsTo(row: Row, userId: string, kind: Kind) {
    row.userId == userId && row.kind == kind
  }

  function Inserted(rows: Rows, raw: string, row: Row): (Rows, Answer) {
    if Sha256(raw) in rows then (rows, Refused(Internal)) else (rows[Sha256(raw) := row], Issued(raw))
  }

  function SqliteVerified(rows: Rows, raw: string, kind: Kind, now: int): (Rows, Answer) {
    var h := Sha256(raw);
    if h !in rows || rows[h].kind != kind then (rows, Refused(Invalid))
    else if rows[h].usedAt.Some? then (rows, Refused(AlreadyUsed))
    else if rows[h].expiresAt <= now then (rows, Refused(Expired))
    else (rows[h := rows[h].(usedAt := Some(now))], Verified(rows[h].userId))
  }

  function PgSelected(rows: Rows, raw: string, kind: Kind, now: int): Option<string> {
    var h := Sha256(raw);
    if h in rows && rows[h].kind == kind && rows[h].usedAt.None? && rows[h].expiresAt > now
    then Some(rows[h].userId) else None
  }

  /** The update does not look again whether the row is unused. */
  function Marked(rows: Rows, raw: string, now: int): Rows {
    var h := Sha256(raw);
    if h in rows then rows[h := rows[h].(usedAt := Some(now))] else rows
  }

  function PgVerified(rows: Rows, raw: string, kind: Kind, now: int): (Rows, Answer) {
    var userId := PgSelected(rows, raw, kind, now);
    if userId.Some? then (Marked(rows, raw, now), Verified(userId.value)) else (rows, Refused(NotFound))
  }

  /** SQLite deletes the rows. */
  function SqliteInvalidated(rows: Rows, userId: string, kind: Kind): Rows {
    map h | h in rows && !BelongsTo(rows[h], userId, kind) :: rows[h]
  }

  /** Postgres marks the unused ones. */
  function PgInvalidated(rows: Rows, userId: string, kind: Kind, now: int): Rows {
    map h | h in rows ::
      if BelongsTo(rows[h], userId, kind) && rows[h].usedAt.None? then rows[h].(usedAt := Some(now)) else rows[h]
  }

  function Pruned(rows: Rows, now: int): Rows {
    map h | h in rows && !(rows[h].expiresAt <= now || rows[h].usedAt.Some?) :: rows[h]
  }

  // ---- The repositories ----

  class SqliteVerificationTokenRepo {
    var rows: Rows

    constructor ()
      ensures rows == map[]
    {
      rows := map[];
    }

    method Create(userId: string, kind: Kind, ttlMs: int, raw: string, now: int) returns (answer: Answer)
      modifies this
      ensures (rows, answer) == Inserted(old(rows), raw, Row(userId, kind, now + ttlMs, None))
    {
      var tokenHash := Sha256(raw);
      if tokenHash in rows {
        return Refused(Internal);
      }
      rows := rows[tokenHash := Row(userId, kind, now + ttlMs, None)];
      answer := Issued(raw);
    }

    method Verify(raw: string, kind: Kind, now: int) returns (answer: Answer)
      modifies this
      ensures (rows, answer) == SqliteVerified(old(rows), raw, kind, now)
    {
      var tokenHash := Sha256(raw);
      if tokenHash !in rows || rows[tokenHash].kind != kind {
        return Refused(Invalid);
      }
      var row := rows[tokenHash];
      if row.usedAt.Some? {
        return Refused(AlreadyUsed);
      }
      if row.expiresAt <= now {
        return Refused(Expired);
      }
      rows := rows[tokenHash := row.(usedAt := Some(now))];
      answer := Verified(row.userId);
    }

    method InvalidateAll(userId: string, kind: Kind)
      modifies this
      ensures rows == SqliteInvalidated(old(rows), userId, kind)
    {
      rows := map h | h in rows && !BelongsTo(rows[h], userId, kind) :: rows[h];
    }

    method Prune(now: int) returns (count: nat)
      modifies this
      ensures rows == Pruned(old(rows), now)
      ensures count == |set h | h in old(rows) && h !in rows|
    {
      var gone := set h | h in rows && (rows[h].expiresAt <= now || rows[h].usedAt.Some?);
      ghost var before := rows;
      rows := rows - gone;
      assert rows == Pruned(before, now);
      assert gone == set h | h in before && h !in rows;
      count := |gone|;
    }
  }

  class PgVerificationTokenRepo {
    var rows: Rows

    constructor ()
      ensures rows == map[]
    {
      rows := map[];
    }

    method Create(userId: string, kind: Kind, ttlMs: int, raw: string, now: int) returns (answer: Answer)
      modifies this
      ensures (rows, answer) == Inserted(old(rows), raw, Row(userId, kind, now + ttlMs, None))
    {
      var tokenHash := Sha256(raw);
      if tokenHash in rows {
        return Refused(Internal);
      }
      rows := rows[tokenHash := Row(userId, kind, now + ttlMs, None)];
      answer := Issued(raw);
    }

    /** verify up to its second await: the filtered select. */
    method SelectUsable(raw: string, kind: Kind, now: int) returns (userId: Option<string>)
      ensures userId == PgSelected(rows, raw, kind, now)
    {
      var tokenHash := Sha256(raw);
      var found := set h | h in rows && h == tokenHash && rows[h].kind == kind && rows[h].usedAt.None? && rows[h].expiresAt > now;
      if found == {} {
        assert tokenHash !in found;
        return None;
      }
      assert tokenHash in found;
      return Some(rows[tokenHash].userId);
    }

    /** The update that follows it, by the row's id alone. */
    method MarkUsed(raw: string, now: int)
      modifies this
      ensures rows == Marked(old(rows), raw, now)
    {
      var tokenHash := Sha256(raw);
      if tokenHash in rows {
        rows := rows[tokenHash := rows[tokenHash].(usedAt := Some(now))];
      }
    }

    /** verify when nothing comes between its select and its update. */
    method Verify(raw: string, kind: Kind, now: int) returns (answer: Answer)
      modifies this
      ensures (rows, answer) == PgVerified(old(rows), raw, kind, now)
    {
      var userId := SelectUsable(raw, kind, now);
      if userId.None? {
        return Refused(NotFound);
      }
      MarkUsed(raw, now);
      answer := Verified(userId.value);
    }

    method InvalidateAll(userId: string, kind: Kind, now: int)
      modifies this
      ensures rows == PgInvalidated(old(rows), userId, kind, now)
    {
      rows := map h | h in rows ::
        if BelongsTo(rows[h], userId, kind) && rows[h].usedAt.None? then rows[h].(usedAt := Some(now)) else rows[h];
    }

    method Prune(now: int) returns (count: nat)
      modifies this
      ensures rows == Pruned(old(rows), now)
      ensures count == |set h | h in old(rows) && h !in rows|
    {
      var gone := set h | h in rows && (rows[h].expiresAt <= now || rows[h].usedAt.Some?);
      ghost var before := rows;
      rows := rows - gone;
      assert rows == Pruned(before, now);
      assert gone == set h | h in before && h !in rows;
      count := |gone|;
    }
  }

  /** The part of AuthService that issues tokens, over the SQLite repository. */
  class AuthService {
    const tokens: SqliteVerificationTokenRepo

    constructor (tokens: SqliteVerificationTokenRepo)
      ensures this.tokens == tokens
    {
      this.tokens := tokens;
    }

    method ResendVerification(userId: string, raw: string, now: int) returns (answer: Answer)
      modifies tokens
      ensures (tokens.rows, answer) == Resent(old(tokens.rows), userId, raw, now)
    {
      tokens.InvalidateAll(userId, EmailVerification);
      answer := tokens.Create(userId, EmailVerification, EMAIL_VERIFY_TTL, raw, now);
    }

    /** user is the account that has the email, if there is one. */
    method ForgotPassword(user: Option<string>, raw: string, now: int) returns (answer: Answer)
      modifies tokens
      ensures (tokens.rows, answer) == Forgotten(old(tokens.rows), user, raw, now)
    {
      if user.None? {
        return Issued("");
      }
      tokens.InvalidateAll(user.value, PasswordReset);
      answer := tokens.Create(user.value, PasswordReset, PASSWORD_RESET_TTL, raw, now);
    }
  }

  function Resent(rows: Rows, userId: string, raw: string, now: int): (Rows, Answer) {
    SqliteNext(rows, Event(Issue(userId, EmailVerification, EMAIL_VERIFY_TTL, raw), now))
  }

  /** A reset link works for an hour, and a verification link for a day, each for its user and its purpose
      only. */
  lemma LinksLast(rows: Rows, userId: string, raw: string, now: int, kind: Kind, t: int, other: string)
    requires Sha256(raw) !in rows
    ensures SqliteVerified(Forgotten(rows, Some(userId), raw, now).0, raw, kind, t).1 == Verified(other)
            <==> kind == PasswordReset && t < now + 3_600_000 && other == userId
    ensures SqliteVerified(Resent(rows, userId, raw, now).0, raw, kind, t).1 == Verified(other)
            <==> kind == EmailVerification && t < now + 86_400_000 && other == userId
  {
  }

  /** A new link replaces the older ones of its user and purpose, and leaves every other token as it was. */
  lemma LinksReplace(rows: Rows, userId: string, raw: string, now: int, older: string, kind: Kind, t: int)
    requires Sha256(raw) !in rows && older != raw
    ensures var h := Sha256(older);
            SqliteVerified(Forgotten(rows, Some(userId), raw, now).0, older, kind, t).1
            == if h in rows && rows[h].userId == userId && rows[h].kind == PasswordReset then Refused(Invalid)
               else SqliteVerified(rows, older, kind, t).1
    ensures var h := Sha256(older);
            SqliteVerified(Resent(rows, userId, raw, now).0, older, kind, t).1
            == if h in rows && rows[h].userId == userId && rows[h].kind == EmailVerification then Refused(Invalid)
               else SqliteVerified(rows, older, kind, t).1
  {
  }

  /** Withdrawal by marking keeps every row, and marks exactly the unused ones of the user and kind. */
  lemma MarkingWithdraws(rows: Rows, userId: string, kind: Kind, now: int, h: TokenHash)
    ensures var rows' := PgInvalidated(rows, userId, kind, now);
            && (h in rows' <==> h in rows)
            && (h in rows ==>
                  rows'[h] == if rows[h].userId == userId && rows[h].kind == kind && rows[h].usedAt == None
                              then rows[h].(usedAt := Some(now)) else rows[h])
  {
  }

  /** Creating a token that is there already changes nothing, in either table. */
  lemma DuplicateIsRefused(rows: Rows, e: Event)
    requires e.op.Create? && Sha256(e.op.raw) in rows
    ensures SqliteNext(rows, e) == (rows, Refused(Internal)) && PgNext(rows, e) == (rows, Refused(Internal))
  {
  }

  function Forgotten(rows: Rows, user: Option<string>, raw: string, now: int): (Rows, Answer) {
    if user.None? then (rows, Issued(""))
    else SqliteNext(rows, Event(Issue(user.value, PasswordReset, PASSWORD_RESET_TTL, raw), now))
  }

  /** forgotPassword answers a known and an unknown email alike only if the generated token is empty,
      which it never is: the answer tells them apart, although it is meant not to. */
  lemma AnswersAlikeExactly(rows: Rows, userId: string, raw: string, now: int)
    requires Sha256(raw) !in rows
    ensures Forgotten(rows, Some(userId), raw, now).1 == Forgotten(rows, None, raw, now).1 <==> raw == ""
  {
  }

  lemma KnownEmailShows()
    ensures Forgotten(map[], Some("u"), "t", 0).1 == Issued("t") && Forgotten(map[], None, "t", 0).1 == Issued("")
  {
  }

  // ---- Runs ----

  /** Issue is invalidateAll followed by create, as resendVerification and forgotPassword do. */
  datatype Op =
    | Create(userId: string, kind: Kind, ttlMs: int, raw: string)
    | Issue(userId: string, kind: Kind, ttlMs: int, raw: string)
    | Verify(raw: string, kind: Kind)
    | InvalidateAll(userId: string, kind: Kind)
    | Prune

  datatype Event = Event(op: Op, now: int)

  function SqliteNext(rows: Rows, e: Event): (Rows, Answer) {
    match e.op
    case Create(u, k, ttl, raw) => Inserted(rows, raw, Row(u, k, e.now + ttl, None))
    case Issue(u, k, ttl, raw) => Inserted(SqliteInvalidated(rows, u, k), raw, Row(u, k, e.now + ttl, None))
    case Verify(raw, k) => SqliteVerified(rows, raw, k, e.now)
    case InvalidateAll(u, k) => (SqliteInvalidated(rows, u, k), Done)
    case Prune => (Pruned(rows, e.now), Done)
  }

  function PgNext(rows: Rows, e: Event): (Rows, Answer) {
    match e.op
    case Create(u, k, ttl, raw) => Inserted(rows, raw, Row(u, k, e.now + ttl, None))
    case Issue(u, k, ttl, raw) => Inserted(PgInvalidated(rows, u, k, e.now), raw, Row(u, k, e.now + ttl, None))
    case Verify(raw, k) => PgVerified(rows, raw, k, e.now)
    case InvalidateAll(u, k) => (PgInvalidated(rows, u, k, e.now), Done)
    case Prune => (Pruned(rows, e.now), Done)
  }

  /** The two tables under one run, every raw token created so far, every user one was created for, and
      the clock. */
  datatype World = World(sqlite: Rows, pg: Rows, issued: set<string>, known: set<string>, clock: int)

  predicate Creates(op: Op) {
    op.Create? || op.Issue?
  }

  function Next(w: World, e: Event): World {
    World(SqliteNext(w.sqlite, e).0, PgNext(w.pg, e).0,
          if Creates(e.op) then w.issued + {e.op.raw} else w.issued,
          if Creates(e.op) then w.known + {e.op.userId} else w.known,
          e.now)
  }

  /** Both repositories start empty. */
  function WorldAt(es: seq<Event>, n: nat): World
    requires n <= |es|
  {
    if n == 0 then World(map[], map[], {}, {}, if es == [] then 0 else es[0].now)
    else Next(WorldAt(es, n - 1), es[n - 1])
  }

  /** The clock does not go back, and generated tokens are new. */
  predicate Enabled(w: World, e: Event) {
    w.clock <= e.now && (Creates(e.op) ==> e.op.raw !in w.issued)
  }

  predicate ValidPrefix(es: seq<Event>, n: nat)
    requires n <= |es|
  {
    n == 0 || (ValidPrefix(es, n - 1) && Enabled(WorldAt(es, n - 1), es[n - 1]))
  }

  /** Through the service a bare create happens only in register, for a user just made. */
  predicate ThroughService(es: seq<Event>, n: nat)
    requires n <= |es|
  {
    n == 0 || (ThroughService(es, n - 1) && (es[n - 1].op.Create? ==> es[n - 1].op.userId !in WorldAt(es, n - 1).known))
  }

  function SqliteAnswer(es: seq<Event>, n: nat): Answer
    requires n < |es|
  {
    SqliteNext(WorldAt(es, n).sqlite, es[n]).1
  }

  function PgAnswer(es: seq<Event>, n: nat): Answer
    requires n < |es|
  {
    PgNext(WorldAt(es, n).pg, es[n]).1
  }

  // ---- The grants a run has outstanding, from its events alone ----

  datatype Grant = Grant(userId: string, kind: Kind, expiresAt: int)

  predicate Grants(e: Event, raw: string, g: Grant) {
    Creates(e.op) && e.op.raw == raw && g == Grant(e.op.userId, e.op.kind, e.now + e.op.ttlMs)
  }

  /** Presenting the token, or withdrawing the user's tokens of its kind, ends the grant. */
  predicate Ends(op: Op, raw: string, g: Grant) {
    op == Verify(raw, g.kind) || ((op.Issue? || op.InvalidateAll?) && op.userId == g.userId && op.kind == g.kind)
  }

  predicate Undisturbed(es: seq<Event>, i: nat, n: nat, raw: string, g: Grant)
    requires i < n <= |es|
  {
    forall j :: i < j < n ==> !Ends(es[j].op, raw, g)
  }

  /** Some event before n granted g under raw, and none since ended it. Pruning plays no part. */
  ghost predicate Outstanding(es: seq<Event>, n: nat, raw: string, g: Grant)
    requires n <= |es|
  {
    exists i :: 0 <= i < n && Grants(es[i], raw, g) && Undisturbed(es, i, n, raw, g)
  }

  // ---- Both tables hold exactly the outstanding grants that have not expired ----

  predicate Usable(rows: Rows, raw: string, g: Grant) {
    Sha256(raw) in rows && rows[Sha256(raw)] == Row(g.userId, g.kind, g.expiresAt, None)
  }

  predicate OnlyIssued(rows: Rows, issued: set<string>) {
    forall h :: h in rows ==> h.text in issued
  }

  /** One step seen from one token and grant: granted now, or held before and not ended. */
  predicate Held(before: bool, e: Event, raw: string, g: Grant) {
    Grants(e, raw, g) || (before && !Ends(e.op, raw, g))
  }

  lemma SqliteHolds(rows: Rows, issued: set<string>, e: Event, raw: string, g: Grant)
    requires OnlyIssued(rows, issued) && (Creates(e.op) ==> e.op.raw !in issued) && e.now < g.expiresAt
    ensures Usable(SqliteNext(rows, e).0, raw, g) <==> Held(Usable(rows, raw, g), e, raw, g)
  {
    if Sha256(raw) in rows { assert raw in issued; }
  }

  lemma PgHolds(rows: Rows, issued: set<string>, e: Event, raw: string, g: Grant)
    requires OnlyIssued(rows, issued) && (Creates(e.op) ==> e.op.raw !in issued) && e.now < g.expiresAt
    ensures Usable(PgNext(rows, e).0, raw, g) <==> Held(Usable(rows, raw, g), e, raw, g)
  {
    if Sha256(raw) in rows { assert raw in issued; }
  }

  lemma OnlyIssuedStep(w: World, e: Event)
    requires OnlyIssued(w.sqlite, w.issued) && OnlyIssued(w.pg, w.issued)
    ensures OnlyIssued(Next(w, e).sqlite, Next(w, e).issued) && OnlyIssued(Next(w, e).pg, Next(w, e).issued)
  {
    forall h | h in Next(w, e).sqlite ensures h.text in Next(w, e).issued {
      if h in w.sqlite { assert h.text in w.issued; }
    }
    forall h | h in Next(w, e).pg ensures h.text in Next(w, e).issued {
      if h in w.pg { assert h.text in w.issued; }
    }
  }

  lemma {:induction false} OnlyIssuedAt(es: seq<Event>, n: nat)
    requires n <= |es|
    ensures OnlyIssued(WorldAt(es, n).sqlite, WorldAt(es, n).issued)
    ensures OnlyIssued(WorldAt(es, n).pg, WorldAt(es, n).issued)
  {
    hide Next, OnlyIssued;
    if n > 0 {
      OnlyIssuedAt(es, n - 1);
      OnlyIssuedStep(WorldAt(es, n - 1), es[n - 1]);
    } else {
      NothingIssued();
    }
  }

  lemma NothingIssued()
    ensures OnlyIssued(map[], {})
  {
  }

  lemma OutstandingStep(es: seq<Event>, n: nat, raw: string, g: Grant)
    requires n < |es|
    ensures Outstanding(es, n + 1, raw, g) <==> Held(Outstanding(es, n, raw, g), es[n], raw, g)
  {
    hide Grants, Ends;
    if Outstanding(es, n + 1, raw, g) && !Grants(es[n], raw, g) {
      var i :| 0 <= i < n + 1 && Grants(es[i], raw, g) && Undisturbed(es, i, n + 1, raw, g);
      assert i < n;
      assert Undisturbed(es, i, n, raw, g);
    }
    if Grants(es[n], raw, g) {
      assert Undisturbed(es, n, n + 1, raw, g);
    } else if Outstanding(es, n, raw, g) && !Ends(es[n].op, raw, g) {
      var i :| 0 <= i < n && Grants(es[i], raw, g) && Undisturbed(es, i, n, raw, g);
      assert Undisturbed(es, i, n + 1, raw, g);
    }
  }

  /** While a grant has not expired, each table has a usable row for it exactly when the events say it
      is outstanding, whatever was pruned and however withdrawal is recorded. */
  lemma {:induction false} TablesAreHistory(es: seq<Event>, n: nat, raw: string, g: Grant)
    requires n <= |es| && ValidPrefix(es, n) && WorldAt(es, n).clock < g.expiresAt
    ensures Usable(WorldAt(es, n).sqlite, raw, g) <==> Outstanding(es, n, raw, g)
    ensures Usable(WorldAt(es, n).pg, raw, g) <==> Outstanding(es, n, raw, g)
  {
    hide SqliteNext, PgNext, Outstanding, Usable, OnlyIssued, Held;
    if n == 0 {
      NoneAtFirst(es, raw, g);
    } else {
      TablesAreHistory(es, n - 1, raw, g);
      var w, e := WorldAt(es, n - 1), es[n - 1];
      OnlyIssuedAt(es, n - 1);
      SqliteHolds(w.sqlite, w.issued, e, raw, g);
      PgHolds(w.pg, w.issued, e, raw, g);
      OutstandingStep(es, n - 1, raw, g);
    }
  }

  lemma NoneAtFirst(es: seq<Event>, raw: string, g: Grant)
    ensures !Usable(WorldAt(es, 0).sqlite, raw, g) && !Usable(WorldAt(es, 0).pg, raw, g)
    ensures !Outstanding(es, 0, raw, g)
  {
  }

  // ---- What verify answers ----

  lemma SqliteVerifiedUsable(rows: Rows, raw: string, kind: Kind, now: int, userId: string)
    ensures SqliteVerified(rows, raw, kind, now).1 == Verified(userId) <==>
            exists t :: now < t && Usable(rows, raw, Grant(userId, kind, t))
  {
    if Sha256(raw) in rows {
      var row := rows[Sha256(raw)];
      if row.usedAt.None? && row.expiresAt > now && row.kind == kind {
        assert Usable(rows, raw, Grant(row.userId, kind, row.expiresAt));
      }
    }
  }

  lemma PgVerifiedUsable(rows: Rows, raw: string, kind: Kind, now: int, userId: string)
    ensures PgVerified(rows, raw, kind, now).1 == Verified(userId) <==>
            exists t :: now < t && Usable(rows, raw, Grant(userId, kind, t))
  {
    if Sha256(raw) in rows {
      var row := rows[Sha256(raw)];
      if row.usedAt.None? && row.expiresAt > now && row.kind == kind {
        assert Usable(rows, raw, Grant(row.userId, kind, row.expiresAt));
      }
    }
  }

  /** verify succeeds, in either repository, exactly for the user to whom the token was granted for
      that kind, before it expires, before it is presented for that kind, and before it is withdrawn. */
  lemma VerifiedExactly(es: seq<Event>, n: nat, userId: string)
    requires n < |es| && ValidPrefix(es, n + 1) && es[n].op.Verify?
    ensures SqliteAnswer(es, n) == Verified(userId) <==>
            exists t :: es[n].now < t && Outstanding(es, n, es[n].op.raw, Grant(userId, es[n].op.kind, t))
    ensures PgAnswer(es, n) == Verified(userId) <==>
            exists t :: es[n].now < t && Outstanding(es, n, es[n].op.raw, Grant(userId, es[n].op.kind, t))
  {
    hide Outstanding, Usable, WorldAt, SqliteVerified, PgVerified;
    var w, raw, kind, now := WorldAt(es, n), es[n].op.raw, es[n].op.kind, es[n].now;
    SqliteVerifiedUsable(w.sqlite, raw, kind, now, userId);
    PgVerifiedUsable(w.pg, raw, kind, now, userId);
    forall t | now < t
      ensures Usable(w.sqlite, raw, Grant(userId, kind, t)) <==> Outstanding(es, n, raw, Grant(userId, kind, t))
      ensures Usable(w.pg, raw, Grant(userId, kind, t)) <==> Outstanding(es, n, raw, Grant(userId, kind, t))
    {
      TablesAreHistory(es, n, raw, Grant(userId, kind, t));
    }
  }

  lemma {:induction false} ValidBefore(es: seq<Event>, m: nat, n: nat)
    requires m <= n <= |es| && ValidPrefix(es, n)
    ensures ValidPrefix(es, m)
  {
    if m < n { ValidBefore(es, m, n - 1); }
  }

  lemma {:induction false} IssuedStays(es: seq<Event>, m: nat, n: nat)
    requires m <= n <= |es|
    ensures WorldAt(es, m).issued <= WorldAt(es, n).issued
    ensures WorldAt(es, m).known <= WorldAt(es, n).known
  {
    hide SqliteNext, PgNext;
    if m < n { IssuedStays(es, m, n - 1); }
  }

  /** No raw token is created twice in a run. */
  lemma CreatedOnce(es: seq<Event>, i: nat, j: nat)
    requires i < j < |es| && ValidPrefix(es, j + 1)
    requires Creates(es[i].op) && Creates(es[j].op)
    ensures es[i].op.raw != es[j].op.raw
  {
    hide SqliteNext, PgNext;
    IssuedStays(es, i + 1, j);
    assert es[i].op.raw in WorldAt(es, i + 1).issued;
  }

  /** A raw token verifies at most once in a run. */
  lemma VerifiesOnce(es: seq<Event>, i: nat, j: nat)
    requires i < j < |es| && ValidPrefix(es, j + 1)
    requires es[i].op.Verify? && es[j].op.Verify? && es[i].op.raw == es[j].op.raw
    ensures !(SqliteAnswer(es, i).Verified? && SqliteAnswer(es, j).Verified?)
    ensures !(PgAnswer(es, i).Verified? && PgAnswer(es, j).Verified?)
  {
    hide SqliteAnswer, PgAnswer, WorldAt, ValidPrefix, Outstanding;
    ValidBefore(es, i + 1, j + 1);
    forall u, v ensures !(SqliteAnswer(es, i) == Verified(u) && SqliteAnswer(es, j) == Verified(v))
                ensures !(PgAnswer(es, i) == Verified(u) && PgAnswer(es, j) == Verified(v)) {
      VerifiedExactly(es, i, u);
      VerifiedExactly(es, j, v);
      ValidBefore(es, j, j + 1);
      forall s, t | Outstanding(es, i, es[i].op.raw, Grant(u, es[i].op.kind, s))
        ensures !Outstanding(es, j, es[j].op.raw, Grant(v, es[j].op.kind, t)) {
        NotAfterwards(es, i, j, es[i].op.raw, Grant(u, es[i].op.kind, s), Grant(v, es[j].op.kind, t));
      }
    }
  }

  lemma GrantedOnce(es: seq<Event>, a: nat, b: nat, n: nat, raw: string, g: Grant, g': Grant)
    requires a < n <= |es| && b < n && ValidPrefix(es, n)
    requires Grants(es[a], raw, g) && Grants(es[b], raw, g')
    ensures a == b && g == g'
  {
    hide WorldAt, ValidPrefix;
    ValidBefore(es, a + 1, n);
    ValidBefore(es, b + 1, n);
    if a < b { CreatedOnce(es, a, b); } else if b < a { CreatedOnce(es, b, a); }
  }

  /** A grant presented at i is not outstanding at any later j. */
  lemma NotAfterwards(es: seq<Event>, i: nat, j: nat, raw: string, g: Grant, g': Grant)
    requires i < j <= |es| && ValidPrefix(es, j)
    requires es[i].op == Verify(raw, g.kind)
    requires Outstanding(es, i, raw, g)
    ensures !Outstanding(es, j, raw, g')
  {
    hide WorldAt, ValidPrefix, Grants;
    if Outstanding(es, j, raw, g') {
      var a :| 0 <= a < i && Grants(es[a], raw, g);
      var b :| 0 <= b < j && Grants(es[b], raw, g') && Undisturbed(es, b, j, raw, g');
      GrantedOnce(es, a, b, j, raw, g, g');
    }
  }

  /** Every call succeeds in both repositories or fails in both, for the same user. */
  lemma AdaptersAgree(es: seq<Event>, n: nat)
    requires n < |es| && ValidPrefix(es, n + 1)
    ensures SameOutcome(SqliteAnswer(es, n), PgAnswer(es, n))
  {
    hide WorldAt, Outstanding;
    if es[n].op.Verify? {
      forall u ensures SqliteAnswer(es, n) == Verified(u) <==> PgAnswer(es, n) == Verified(u) {
        VerifiedExactly(es, n, u);
      }
    } else {
      OnlyIssuedAt(es, n);
    }
  }

  /** Through the service a user has at most one usable token of a kind, in either table. */
  lemma OneUsableToken(es: seq<Event>, n: nat, raw: string, raw': string, g: Grant, g': Grant)
    requires n <= |es| && ValidPrefix(es, n) && ThroughService(es, n)
    requires g.userId == g'.userId && g.kind == g'.kind
    requires WorldAt(es, n).clock < g.expiresAt && WorldAt(es, n).clock < g'.expiresAt
    ensures Usable(WorldAt(es, n).sqlite, raw, g) && Usable(WorldAt(es, n).sqlite, raw', g') ==> raw == raw'
    ensures Usable(WorldAt(es, n).pg, raw, g) && Usable(WorldAt(es, n).pg, raw', g') ==> raw == raw'
  {
    hide WorldAt, Usable;
    TablesAreHistory(es, n, raw, g);
    TablesAreHistory(es, n, raw', g');
    if Outstanding(es, n, raw, g) && Outstanding(es, n, raw', g') {
      var i :| 0 <= i < n && Grants(es[i], raw, g) && Undisturbed(es, i, n, raw, g);
      var j :| 0 <= j < n && Grants(es[j], raw', g') && Undisturbed(es, j, n, raw', g');
      if i < j {
        LaterWithdraws(es, i, j, n);
      } else if j < i {
        LaterWithdraws(es, j, i, n);
      }
    }
  }

  lemma {:induction false} LaterWithdraws(es: seq<Event>, i: nat, j: nat, n: nat)
    requires i < j < n <= |es| && ThroughService(es, n)
    requires Creates(es[i].op) && Creates(es[j].op) && es[i].op.userId == es[j].op.userId
    ensures es[j].op.Issue?
    decreases n
  {
    hide SqliteNext, PgNext;
    if j < n - 1 {
      LaterWithdraws(es, i, j, n - 1);
    } else {
      IssuedStays(es, i + 1, j);
      assert es[i].op.userId in WorldAt(es, i + 1).known;
    }
  }

  // ---- What a refusal tells ----

  /** A verify of raw for this kind succeeded before n. */
  ghost predicate Presented(es: seq<Event>, n: nat, raw: string, kind: Kind)
    requires n <= |es|
  {
    exists j :: 0 <= j < n && es[j].op == Verify(raw, kind) && SqliteAnswer(es, j).Verified?
  }

  ghost predicate Granted(es: seq<Event>, n: nat, raw: string, g: Grant)
    requires n <= |es|
  {
    exists i :: 0 <= i < n && Grants(es[i], raw, g)
  }

  /** A row was granted, and it is used exactly if it was presented. */
  ghost predicate RowOk(es: seq<Event>, n: nat, raw: string)
    requires n <= |es|
  {
    var rows := WorldAt(es, n).sqlite;
    Sha256(raw) in rows ==>
      var row := rows[Sha256(raw)];
      && Granted(es, n, raw, Grant(row.userId, row.kind, row.expiresAt))
      && (row.usedAt.Some? <==> Presented(es, n, raw, row.kind))
  }

  lemma GrantedStep(es: seq<Event>, n: nat, raw: string, g: Grant)
    requires n < |es|
    ensures Granted(es, n + 1, raw, g) <==> Granted(es, n, raw, g) || Grants(es[n], raw, g)
  {
    hide Grants;
  }

  lemma PresentedStep(es: seq<Event>, n: nat, raw: string, kind: Kind)
    requires n < |es|
    ensures Presented(es, n + 1, raw, kind) <==>
            Presented(es, n, raw, kind) || (es[n].op == Verify(raw, kind) && SqliteAnswer(es, n).Verified?)
  {
    hide SqliteAnswer;
  }

  /** A token that was never created was never presented with success. */
  lemma {:induction false} NewIsNotPresented(es: seq<Event>, n: nat, raw: string, kind: Kind)
    requires n <= |es| && raw !in WorldAt(es, n).issued
    ensures !Presented(es, n, raw, kind)
  {
    hide SqliteNext, PgNext, SqliteAnswer;
    if n > 0 {
      IssuedStays(es, n - 1, n);
      NewIsNotPresented(es, n - 1, raw, kind);
      PresentedStep(es, n - 1, raw, kind);
      OnlyIssuedAt(es, n - 1);
      UnknownIsRefused(es, n - 1, raw);
    }
  }

  lemma UnknownIsRefused(es: seq<Event>, n: nat, raw: string)
    requires n < |es| && OnlyIssued(WorldAt(es, n).sqlite, WorldAt(es, n).issued) && raw !in WorldAt(es, n).issued
    ensures es[n].op.Verify? && es[n].op.raw == raw ==> !SqliteAnswer(es, n).Verified?
  {
    assert Sha256(raw) !in WorldAt(es, n).sqlite;
  }

  /** How one event changes the row of a token. */
  lemma RowStep(rows: Rows, e: Event, raw: string)
    requires Creates(e.op) && e.op.raw == raw ==> Sha256(raw) !in rows
    ensures var (h, r') := (Sha256(raw), SqliteNext(rows, e));
            h in r'.0 ==>
              || (Grants(e, raw, Grant(r'.0[h].userId, r'.0[h].kind, r'.0[h].expiresAt)) && r'.0[h].usedAt.None?)
              || (h in rows && !(Creates(e.op) && e.op.raw == raw) && r'.0[h].(usedAt := None) == rows[h].(usedAt := None)
                  && (r'.0[h].usedAt.Some? <==> rows[h].usedAt.Some? || (e.op == Verify(raw, rows[h].kind) && r'.1.Verified?)))
  {
  }

  lemma {:induction false} RowOkAt(es: seq<Event>, n: nat, raw: string)
    requires n <= |es| && ValidPrefix(es, n)
    ensures RowOk(es, n, raw)
  {
    hide SqliteNext, PgNext, Granted, Presented, Grants;
    if n > 0 {
      RowOkAt(es, n - 1, raw);
      var (w, e, h) := (WorldAt(es, n - 1), es[n - 1], Sha256(raw));
      OnlyIssuedAt(es, n - 1);
      assert Creates(e.op) && e.op.raw == raw ==> h !in w.sqlite;
      RowStep(w.sqlite, e, raw);
      var rows' := WorldAt(es, n).sqlite;
      if h in rows' {
        var row := rows'[h];
        GrantedStep(es, n - 1, raw, Grant(row.userId, row.kind, row.expiresAt));
        PresentedStep(es, n - 1, raw, row.kind);
        if Creates(e.op) && e.op.raw == raw {
          NewIsNotPresented(es, n - 1, raw, row.kind);
        } else {
          GrantsCreates(e, raw, Grant(row.userId, row.kind, row.expiresAt));
        }
      }
    }
  }

  lemma GrantsCreates(e: Event, raw: string, g: Grant)
    ensures Grants(e, raw, g) ==> Creates(e.op) && e.op.raw == raw
  {
  }

  /** The SQLite repository says "already used" of a token only if it was presented with success before for
      this kind, and "expired" only if it was granted for this kind, has expired and was not presented; a
      token never granted for this kind is called invalid. */
  lemma RefusalsTellWhy(es: seq<Event>, n: nat)
    requires n < |es| && ValidPrefix(es, n + 1) && es[n].op.Verify?
    ensures var (raw, kind) := (es[n].op.raw, es[n].op.kind);
            && (SqliteAnswer(es, n) == Refused(AlreadyUsed) ==> Presented(es, n, raw, kind))
            && (SqliteAnswer(es, n) == Refused(Expired) ==>
                  !Presented(es, n, raw, kind)
                  && exists g: Grant :: g.kind == kind && g.expiresAt <= es[n].now && Granted(es, n, raw, g))
            && (SqliteAnswer(es, n) != Refused(Invalid) ==> exists g: Grant :: g.kind == kind && Granted(es, n, raw, g))
  {
    hide WorldAt, Granted, Presented;
    var (raw, kind, rows) := (es[n].op.raw, es[n].op.kind, WorldAt(es, n).sqlite);
    RowOkAt(es, n, raw);
    if SqliteAnswer(es, n) != Refused(Invalid) {
      var row := rows[Sha256(raw)];
      var g := Grant(row.userId, row.kind, row.expiresAt);
      assert g.kind == kind && Granted(es, n, raw, g);
    }
  }

  /** Neither a prune nor a withdrawal of the row's user and kind. */
  predicate KeepsRow(op: Op, row: Row) {
    op != Prune && !((op.Issue? || op.InvalidateAll?) && op.userId == row.userId && op.kind == row.kind)
  }

  lemma {:induction false} RowStays(es: seq<Event>, i: nat, n: nat, raw: string, row: Row)
    requires i <= n <= |es| && ValidPrefix(es, n)
    requires Sha256(raw) in WorldAt(es, i).sqlite && WorldAt(es, i).sqlite[Sha256(raw)] == row
    requires forall k :: i <= k < n ==> KeepsRow(es[k].op, row)
    requires row.usedAt.Some? || !Presented(es, n, raw, row.kind)
    ensures Sha256(raw) in WorldAt(es, n).sqlite && WorldAt(es, n).sqlite[Sha256(raw)] == row
  {
    hide PgNext, SqliteNext, Presented, KeepsRow;
    if i < n {
      PresentedStep(es, n - 1, raw, row.kind);
      RowStays(es, i, n - 1, raw, row);
      OnlyIssuedAt(es, n - 1);
      KeptStep(WorldAt(es, n - 1).sqlite, es[n - 1], raw, row);
    }
  }

  lemma KeptStep(rows: Rows, e: Event, raw: string, row: Row)
    requires Sha256(raw) in rows && rows[Sha256(raw)] == row && KeepsRow(e.op, row)
    requires Creates(e.op) ==> e.op.raw != raw
    requires row.usedAt.Some? || !(e.op == Verify(raw, row.kind) && SqliteNext(rows, e).1.Verified?)
    ensures Sha256(raw) in SqliteNext(rows, e).0 && SqliteNext(rows, e).0[Sha256(raw)] == row
  {
  }

  /** And as long as its row is neither pruned nor withdrawn, it does say so: of a token presented with
      success before, and of one that expired without having been. */
  lemma RefusalsAreTold(es: seq<Event>, i: nat, n: nat, g: Grant)
    requires i < n < |es| && ValidPrefix(es, n + 1) && es[n].op.Verify? && es[n].op.kind == g.kind
    requires Grants(es[i], es[n].op.raw, g) && SqliteAnswer(es, i).Issued?
    requires forall k :: i < k < n ==> KeepsRow(es[k].op, Row(g.userId, g.kind, g.expiresAt, None))
    ensures Presented(es, n, es[n].op.raw, g.kind) ==> SqliteAnswer(es, n) == Refused(AlreadyUsed)
    ensures !Presented(es, n, es[n].op.raw, g.kind) && g.expiresAt <= es[n].now ==> SqliteAnswer(es, n) == Refused(Expired)
  {
    hide PgNext, Presented, ValidPrefix;
    var raw := es[n].op.raw;
    GrantedRow(es, i, raw, g);
    ValidBefore(es, n, n + 1);
    if Presented(es, n, raw, g.kind) {
      RowIsUsed(es, i, n, raw, g);
    } else {
      RowStays(es, i + 1, n, raw, Row(g.userId, g.kind, g.expiresAt, None));
    }
  }

  lemma GrantedRow(es: seq<Event>, i: nat, raw: string, g: Grant)
    requires i < |es| && Grants(es[i], raw, g) && SqliteAnswer(es, i).Issued?
    ensures Sha256(raw) in WorldAt(es, i + 1).sqlite
    ensures WorldAt(es, i + 1).sqlite[Sha256(raw)] == Row(g.userId, g.kind, g.expiresAt, None)
  {
    hide PgNext;
  }

  /** Once presented, the row is there and used. */
  lemma {:induction false} RowIsUsed(es: seq<Event>, i: nat, n: nat, raw: string, g: Grant)
    requires i < n <= |es| && ValidPrefix(es, n) && Grants(es[i], raw, g) && SqliteAnswer(es, i).Issued?
    requires forall k :: i < k < n ==> KeepsRow(es[k].op, Row(g.userId, g.kind, g.expiresAt, None))
    ensures var rows := WorldAt(es, n).sqlite;
            && Sha256(raw) in rows && rows[Sha256(raw)].userId == g.userId && rows[Sha256(raw)].kind == g.kind
            && (Presented(es, n, raw, g.kind) ==> rows[Sha256(raw)].usedAt.Some?)
    decreases n
  {
    hide PgNext, SqliteNext, Presented, Granted, KeepsRow, Grants;
    GrantedRow(es, i, raw, g);
    RowOkAt(es, n, raw);
    if i + 1 < n {
      RowIsUsed(es, i, n - 1, raw, g);
      OnlyIssuedAt(es, n - 1);
      OwnerStays(WorldAt(es, n - 1).sqlite, es[n - 1], raw, g);
    }
  }

  lemma OwnerStays(rows: Rows, e: Event, raw: string, g: Grant)
    requires Sha256(raw) in rows && rows[Sha256(raw)].userId == g.userId && rows[Sha256(raw)].kind == g.kind
    requires KeepsRow(e.op, Row(g.userId, g.kind, g.expiresAt, None)) && (Creates(e.op) ==> e.op.raw != raw)
    ensures var rows' := SqliteNext(rows, e).0;
            Sha256(raw) in rows' && rows'[Sha256(raw)].userId == g.userId && rows'[Sha256(raw)].kind == g.kind
  {
  }

  /** Pruning leaves exactly the rows that are unused and unexpired. */
  lemma PruningKeepsUsable(rows: Rows, now: int, h: TokenHash)
    ensures h in Pruned(rows, now) <==> h in rows && rows[h].usedAt == None && now < rows[h].expiresAt
    ensures h in Pruned(rows, now) ==> Pruned(rows, now)[h] == rows[h]
  {
  }
}
