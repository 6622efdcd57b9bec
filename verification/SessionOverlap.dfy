/** A run in which two refreshes overlap, and what that does to one-time use and revocation. */
module SessionOverlap {
  import opened Base
  import opened SessionStores
  import opened Sessions
  import opened SessionInterleaving
  import SessionSafety

  /** The refresh token that user "u" gets in this second. */
  function T(u: Setup, second: nat): Token {
    Written(SessionSafety.SignedIn(u, second))
  }

  /** One login, two overlapping refreshes 1 and 2 of its token, a password reset, and then a refresh
      of the token that request 2 was given. Every signature is in a second of its own. */
  function OverlapRun(u: Setup): seq<Event> {
    [Event(0, 0, SignSession("u", "user")), Event(0, 0, StoreSession("f")),
     Event(1000, 1, Check(T(u, 0))), Event(1000, 2, Check(T(u, 0))), Event(1000, 1, Locate), Event(1000, 2, Locate),
     Event(1000, 1, Exchange), Event(1000, 1, Record), Event(1000, 1, Rotate),
     Event(2000, 2, Exchange), Event(2000, 2, Record), Event(2000, 2, Rotate),
     Event(2000, 3, RevokeUser("u")),
     Event(3000, 4, Check(T(u, 2))), Event(3000, 4, Locate), Event(3000, 4, Exchange)]
  }

  lemma GoOn(u: Setup, run: seq<Event>, k: nat, w: World, w': World)
    requires k < |run| && Reaches(u, run, k, w) && Enabled(u, w, run[k]) && Next(u, w, run[k]) == w'
    ensures Reaches(u, run, k + 1, w')
  {
  }

  lemma CheckPasses(u: Setup, w: World, e: Event, t: Token)
    requires e.action == Check(t) && e.now >= w.clock && e.request !in w.stages && MaySubmit(u, w.issued, t)
    requires !IsListed(w.blacklist, Sha256(t), e.now)
    ensures Enabled(u, w, e) && Next(u, w, e) == w.(clock := e.now, stages := w.stages[e.request := Checked(t)])
  {
  }

  lemma LocatePasses(u: Setup, w: World, e: Event, t: Token, id: FamilyId, f: Family)
    requires e.action == Locate && e.now >= w.clock && e.request in w.stages && w.stages[e.request] == Checked(t)
    requires w.families == map[id := f] && (f.currentHash == Sha256(t) ==> !f.revoked)
    ensures Enabled(u, w, e)
    ensures var found := if f.currentHash == Sha256(t) then Some(id) else None;
            Next(u, w, e) == w.(clock := e.now, stages := w.stages[e.request := Located(t, found)])
  {
    if f.currentHash == Sha256(t) {
      assert IsCurrent(w.families, id, Sha256(t));
    }
  }

  lemma ExchangePasses(u: Setup, w: World, e: Event, t: Token, f: Option<FamilyId>)
    requires e.action == Exchange && e.now >= w.clock && e.request in w.stages && w.stages[e.request] == Located(t, f)
    requires VerifiesAsRefresh(w.issued, t, e.now) && t.claims.sub == "u" && t.claims.role == "user"
    requires SessionSafety.SignedIn(u, e.now / 1000) !in w.issued
    ensures Enabled(u, w, e)
    ensures Next(u, w, e) == w.(clock := e.now,
                                stages := w.stages[e.request := Exchanged(t, f, SessionSafety.SignedIn(u, e.now / 1000))],
                                issued := Signed(u.tokens, w.issued, "u", "user", e.now))
  {
  }

  lemma RecordPasses(u: Setup, w: World, e: Event, t: Token, f: Option<FamilyId>, c: Claims)
    requires e.action == Record && e.now >= w.clock && e.request in w.stages && w.stages[e.request] == Exchanged(t, f, c)
    ensures Enabled(u, w, e)
    ensures Next(u, w, e) == w.(clock := e.now, stages := w.stages[e.request := Recorded(t, f, c)],
                                blacklist := Listed(w.blacklist, Sha256(t), e.now + BLACKLIST_MS))
  {
  }

  lemma RotatePasses(u: Setup, w: World, e: Event, t: Token, id: FamilyId, c: Claims)
    requires e.action == Rotate && e.now >= w.clock && e.request in w.stages && w.stages[e.request] == Recorded(t, Some(id), c)
    requires id in w.families && id in w.lineage
    ensures Enabled(u, w, e)
    ensures Next(u, w, e) == w.(clock := e.now, stages := w.stages[e.request := Finished],
                                families := Rotated(w.families, id, Sha256(t), Sha256(Written(c)), e.now),
                                lineage := if CanRotate(w.families, id, Sha256(t))
                                           then w.lineage[id := w.lineage[id] + [Sha256(Written(c))]] else w.lineage)
  {
  }

  lemma LoggedIn(u: Setup, run: seq<Event>) returns (w: World)
    requires run == OverlapRun(u)
    ensures Reaches(u, run, 2, w)
    ensures w == World(0, map["f" := Family("u", Sha256(T(u, 0)), false, 0, 0)], map[],
                       Signed(u.tokens, {}, "u", "user", 0), map[0 := Finished], map["f" := [Sha256(T(u, 0))]])
  {
    var signed := START.(issued := Signed(u.tokens, {}, "u", "user", 0),
                         stages := map[0 := SessionSigned("u", SessionSafety.SignedIn(u, 0))]);
    GoOn(u, run, 0, START, signed);
    w := signed.(families := map["f" := Family("u", Sha256(T(u, 0)), false, 0, 0)], stages := map[0 := Finished],
                 lineage := map["f" := [Sha256(T(u, 0))]]);
    GoOn(u, run, 1, signed, w);
  }

  lemma FirstIsKnown(u: Setup)
    ensures MaySubmit(u, Signed(u.tokens, {}, "u", "user", 0), T(u, 0))
  {
  }

  /** The events up to both refreshes past their lookups. */
  lemma BothLocated(u: Setup, run: seq<Event>) returns (w: World)
    requires run == OverlapRun(u)
    ensures Reaches(u, run, 6, w)
    ensures w == World(1000, map["f" := Family("u", Sha256(T(u, 0)), false, 0, 0)], map[],
                       Signed(u.tokens, {}, "u", "user", 0),
                       map[0 := Finished, 1 := Located(T(u, 0), Some("f")), 2 := Located(T(u, 0), Some("f"))],
                       map["f" := [Sha256(T(u, 0))]])
  {
    hide Next, Enabled, Signed, Reaches, MaySubmit, T;
    var (f, t) := (Family("u", Sha256(T(u, 0)), false, 0, 0), T(u, 0));
    var stored := LoggedIn(u, run);
    FirstIsKnown(u);
    CheckPasses(u, stored, run[2], t);
    var first := stored.(clock := 1000, stages := map[0 := Finished, 1 := Checked(t)]);
    GoOn(u, run, 2, stored, first);
    CheckPasses(u, first, run[3], t);
    var both := first.(stages := map[0 := Finished, 1 := Checked(t), 2 := Checked(t)]);
    GoOn(u, run, 3, first, both);
    LocatePasses(u, both, run[4], t, "f", f);
    var located := first.(stages := map[0 := Finished, 1 := Located(t, Some("f")), 2 := Checked(t)]);
    GoOn(u, run, 4, both, located);
    LocatePasses(u, located, run[5], t, "f", f);
    w := first.(stages := map[0 := Finished, 1 := Located(t, Some("f")), 2 := Located(t, Some("f"))]);
    GoOn(u, run, 5, located, w);
  }

  /** From there the refresh r exchanges t and goes through its last three store calls. */
  lemma FinishRefresh(u: Setup, run: seq<Event>, k: nat, w: World, r: RequestId, t: Token, now: nat) returns (w': World)
    requires k + 3 <= |run| && Reaches(u, run, k, w) && r in w.stages && w.stages[r] == Located(t, Some("f")) && now >= w.clock
    requires run[k] == Event(now, r, Exchange) && run[k + 1] == Event(now, r, Record) && run[k + 2] == Event(now, r, Rotate)
    requires VerifiesAsRefresh(w.issued, t, now) && t.claims.sub == "u" && t.claims.role == "user"
    requires SessionSafety.SignedIn(u, now / 1000) !in w.issued && "f" in w.families && "f" in w.lineage
    ensures Reaches(u, run, k + 3, w') && ExchangesAt(u, run, k, t.claims) && w'.clock == now
    ensures w'.issued == Signed(u.tokens, w.issued, "u", "user", now)
    ensures w'.blacklist == Listed(w.blacklist, Sha256(t), now + BLACKLIST_MS)
    ensures w'.families == Rotated(w.families, "f", Sha256(t), Sha256(T(u, now / 1000)), now)
    ensures "f" in w'.lineage && w'.stages == w.stages[r := Finished]
  {
    hide Next, Enabled;
    var c := SessionSafety.SignedIn(u, now / 1000);
    ExchangePasses(u, w, run[k], t, Some("f"));
    var exchanged := Next(u, w, run[k]);
    GoOn(u, run, k, w, exchanged);
    RecordPasses(u, exchanged, run[k + 1], t, Some("f"), c);
    var recorded := Next(u, exchanged, run[k + 1]);
    GoOn(u, run, k + 1, exchanged, recorded);
    RotatePasses(u, recorded, run[k + 2], t, "f", c);
    w' := Next(u, recorded, run[k + 2]);
    GoOn(u, run, k + 2, recorded, w');
    assert w.stages[r := Exchanged(t, Some("f"), c)][r := Recorded(t, Some("f"), c)][r := Finished] == w.stages[r := Finished];
  }

  /** The signatures of the first seconds. */
  lemma Seconds(u: Setup, issued: Issued, now: nat)
    ensures forall s :: SessionSafety.SignedIn(u, s) in Signed(u.tokens, issued, "u", "user", now) <==>
              SessionSafety.SignedIn(u, s) in issued || s == now / 1000
  {
  }

  lemma FirstRefresh(u: Setup, run: seq<Event>) returns (w: World)
    requires run == OverlapRun(u) && u.tokens.refreshTtl >= 2
    ensures Reaches(u, run, 9, w) && ExchangesAt(u, run, 6, T(u, 0).claims) && w.clock == 1000
    ensures w.families == map["f" := Family("u", Sha256(T(u, 1)), false, 0, 1000)]
    ensures forall s :: SessionSafety.SignedIn(u, s) in w.issued <==> s == 0 || s == 1
    ensures w.blacklist == map[Sha256(T(u, 0)) := 1000 + BLACKLIST_MS] && "f" in w.lineage
    ensures w.stages == map[0 := Finished, 1 := Finished, 2 := Located(T(u, 0), Some("f"))]
  {
    hide Next, Enabled, WorldAt, ExchangesAt, Signed;
    var located := BothLocated(u, run);
    Seconds(u, {}, 0);
    w := FinishRefresh(u, run, 6, located, 1, T(u, 0), 1000);
    Seconds(u, located.issued, 1000);
  }

  lemma SecondRefresh(u: Setup, run: seq<Event>, one: World) returns (w: World)
    requires run == OverlapRun(u) && u.tokens.refreshTtl >= 2 && Reaches(u, run, 9, one) && one.clock == 1000
    requires one.families == map["f" := Family("u", Sha256(T(u, 1)), false, 0, 1000)]
    requires forall s :: SessionSafety.SignedIn(u, s) in one.issued <==> s == 0 || s == 1
    requires one.blacklist == map[Sha256(T(u, 0)) := 1000 + BLACKLIST_MS] && "f" in one.lineage
    requires one.stages == map[0 := Finished, 1 := Finished, 2 := Located(T(u, 0), Some("f"))]
    ensures Reaches(u, run, 12, w) && ExchangesAt(u, run, 9, T(u, 0).claims) && w.clock == 2000 && 4 !in w.stages
    ensures w.families == map["f" := Family("u", Sha256(T(u, 1)), false, 0, 1000)]
    ensures forall s :: SessionSafety.SignedIn(u, s) in w.issued <==> s == 0 || s == 1 || s == 2
    ensures !IsListed(w.blacklist, Sha256(T(u, 2)), 3000)
  {
    hide Next, Enabled, WorldAt, ExchangesAt, Signed;
    w := FinishRefresh(u, run, 9, one, 2, T(u, 0), 2000);
    Seconds(u, one.issued, 2000);
  }

  /** The password reset, and the refresh of the second pair after it. */
  lemma LateRefresh(u: Setup, run: seq<Event>, w: World)
    requires run == OverlapRun(u) && u.tokens.refreshTtl >= 2 && Reaches(u, run, 12, w) && w.clock == 2000 && 4 !in w.stages
    requires w.families == map["f" := Family("u", Sha256(T(u, 1)), false, 0, 1000)]
    requires forall s :: SessionSafety.SignedIn(u, s) in w.issued <==> s == 0 || s == 1 || s == 2
    requires !IsListed(w.blacklist, Sha256(T(u, 2)), 3000)
    ensures ExchangesAt(u, run, 15, T(u, 2).claims)
  {
    var (t, f) := (T(u, 2), Family("u", Sha256(T(u, 1)), true, 0, 2000));
    var reset := w.(families := map["f" := f]);
    RevokeReset(u, w, run[12], reset);
    GoOn(u, run, 12, w, reset);
    hide Next, Enabled;
    CheckPasses(u, reset, run[13], t);
    var checked := Next(u, reset, run[13]);
    GoOn(u, run, 13, reset, checked);
    LocatePasses(u, checked, run[14], t, "f", f);
    var located := Next(u, checked, run[14]);
    GoOn(u, run, 14, checked, located);
    ExchangePasses(u, located, run[15], t, None);
  }

  lemma RevokeReset(u: Setup, w: World, e: Event, w': World)
    requires w.families == map["f" := Family("u", Sha256(T(u, 1)), false, 0, 1000)] && w.clock == 2000
    requires e == Event(2000, 3, RevokeUser("u"))
    requires w' == w.(families := map["f" := Family("u", Sha256(T(u, 1)), true, 0, 2000)])
    ensures Enabled(u, w, e) && Next(u, w, e) == w'
  {
    assert UserRevoked(w.families, "u", 2000) == w'.families;
  }

  /** Unless refresh tokens live for less than two seconds, the run exchanges the login's token twice, and
      exchanges a token that it gave out before the password reset after it. */
  lemma OverlapDefeatsRevocation(u: Setup)
    requires u.tokens.refreshTtl >= 2
    ensures ExchangesAt(u, OverlapRun(u), 6, T(u, 0).claims) && ExchangesAt(u, OverlapRun(u), 9, T(u, 0).claims)
    ensures OverlapRun(u)[12].action == RevokeUser("u")
    ensures WorldAt(u, OverlapRun(u), 12).Some? && IsRefreshToken(WorldAt(u, OverlapRun(u), 12).value.issued, T(u, 2))
    ensures ExchangesAt(u, OverlapRun(u), 15, T(u, 2).claims)
  {
    hide Next, Enabled, WorldAt, ExchangesAt;
    var one := FirstRefresh(u, OverlapRun(u));
    var two := SecondRefresh(u, OverlapRun(u), one);
    LateRefresh(u, OverlapRun(u), two);
  }
}
