/**
 Which refresh tokens can still be exchanged when requests are cut at every await: an exact answer
 for every reachable state and every configuration, and with it what revoking a user's sessions does
 and does not reach.
 */
module SessionRevocation {
  import opened Base
  import opened SessionStores
  import opened Sessions
  import opened SessionInterleaving

  // ---- Who a family's current token belongs to ----

  /** A family's current token is a refresh token of its user, signed no later than the last update. */
  predicate OwnerOk(u: Setup, w: World, id: FamilyId) {
    id in w.families ==>
      var (f, t) := (w.families[id], w.families[id].currentHash.text);
      && IsRefreshToken(w.issued, t) && t.claims.sub == f.userId
      && f.updatedAt <= w.clock && ExpiryMs(t.claims) <= f.updatedAt + 1000 * (u.tokens.refreshTtl + 1)
  }

  ghost predicate OwnerInv(u: Setup, w: World) {
    && UniqueCurrent(w.families)
    && (forall id :: OwnerOk(u, w, id))
  }

  ghost predicate Sound(u: Setup, w: World) {
    TokenInv(u, w) && LineageInv(w) && OwnerInv(u, w)
  }

  lemma OwnerStep(u: Setup, w: World, e: Event, id: FamilyId)
    requires Sound(u, w) && Enabled(u, w, e)
    ensures OwnerOk(u, Next(u, w, e), id)
  {
    SignedStep(u, w, e);
    assert SignedOk(u, w.issued, w.clock);
    assert OwnerOk(u, w, id) && StageOk(u, w, e.request);
    hide NextBlacklist, NextLineage, NextStage, NextIssued, LineageInv, TokenInv, OwnerInv;
    var w' := Next(u, w, e);
    if id in w'.families && !(id in w.families && w.families[id].currentHash == w'.families[id].currentHash) {
      assert w'.families[id].currentHash == Sha256(Written(w.stages[e.request].successor));
      if w.stages[e.request].Recorded? {
        assert w.stages[e.request].family == Some(id);
        assert IsRefreshToken(w.issued, w.stages[e.request].token);
      }
    }
  }

  /** A hash that becomes current never was one before. */
  lemma UniqueStep(u: Setup, w: World, e: Event)
    requires LineageInv(w) && UniqueCurrent(w.families) && Enabled(u, w, e)
    ensures UniqueCurrent(Next(u, w, e).families)
  {
    hide NextBlacklist, NextLineage, NextStage, NextIssued;
    var (f, f') := (w.families, Next(u, w, e).families);
    assert PendingOk(w, e.request);
    forall a, b | a in f' && b in f' && f'[a].currentHash == f'[b].currentHash ensures a == b {
      assert FamilyLineage(w, a) && FamilyLineage(w, b);
    }
  }

  lemma SoundStep(u: Setup, w: World, e: Event)
    requires Sound(u, w) && Enabled(u, w, e)
    ensures Sound(u, Next(u, w, e))
  {
    hide Next, Enabled, TokenInv, LineageInv, UniqueCurrent, OwnerOk;
    TokenInvStep(u, w, e);
    LineageStep(u, w, e);
    UniqueStep(u, w, e);
    forall id ensures OwnerOk(u, Next(u, w, e), id) { OwnerStep(u, w, e, id); }
  }

  lemma SoundStart(u: Setup)
    ensures Sound(u, START)
  {
  }

  lemma {:induction false} SoundAt(u: Setup, run: seq<Event>, k: nat, w: World)
    requires Reaches(u, run, k, w)
    ensures Sound(u, w)
  {
    hide Next, Enabled, Sound;
    if k == 0 {
      SoundStart(u);
    } else {
      var before := WorldAt(u, run, k - 1).value;
      SoundAt(u, run, k - 1, before);
      SoundStep(u, before, run[k - 1]);
    }
  }

  // ---- The tokens that can still be exchanged ----

  ghost predicate HasChecked(w: World, t: Token) {
    exists r :: r in w.stages && w.stages[r] == Checked(t)
  }

  predicate LocatedBy(w: World, r: RequestId, t: Token) {
    r in w.stages && w.stages[r].Located? && w.stages[r].token == t
  }

  ghost predicate HasLocated(w: World, t: Token) {
    exists r :: LocatedBy(w, r, t)
  }

  /** The request is about to rotate the family away from t. */
  predicate MovedBy(w: World, r: RequestId, id: FamilyId, t: Token) {
    && r in w.stages && (w.stages[r].Exchanged? || w.stages[r].Recorded?)
    && w.stages[r].token == t && w.stages[r].family == Some(id)
  }

  ghost predicate Moving(w: World, id: FamilyId, t: Token) {
    exists r :: MovedBy(w, r, id, t)
  }

  /** A lookup of t finds the family revoked until the token expires: no rotation under way moves it on,
      and it is too young to be pruned. */
  ghost predicate BlockedIn(w: World, id: FamilyId, t: Token)
    requires t.Jwt?
  {
    && IsCurrent(w.families, id, Sha256(t)) && w.families[id].revoked && !Moving(w, id, t)
    && ExpiryMs(t.claims) <= w.families[id].updatedAt + FAMILY_MAX_AGE_MS + 1
  }

  ghost predicate Blocked(w: World, t: Token)
    requires t.Jwt?
  {
    exists id :: BlockedIn(w, id, t)
  }

  /** The token has time left, and either other texts of it can be submitted; or a request has looked up
      the written one; or that one has passed or will pass the blacklist, and no family blocks it. */
  ghost predicate Exchangeable(u: Setup, w: World, c: Claims) {
    var t := Written(c);
    && IsRefresh(w.issued, c) && HasTime(u, w, c)
    && (|| !u.strictTexts
        || HasLocated(w, t)
        || ((HasChecked(w, t) || !ListedToEnd(w, t)) && !Blocked(w, t)))
  }

  lemma ExchangeNeedsExchangeable(u: Setup, w: World, e: Event)
    requires TokenInv(u, w) && Enabled(u, w, e) && e.action.Exchange?
    requires VerifiesAsRefresh(w.issued, w.stages[e.request].token, e.now)
    ensures Exchangeable(u, w, w.stages[e.request].token.claims)
  {
    ExchangeTakesTime(u, w, e);
    assert LocatedBy(w, e.request, w.stages[e.request].token);
  }

  lemma LookupIsBlocked(w: World, t: Token)
    requires UniqueCurrent(w.families) && t.Jwt? && Blocked(w, t)
    ensures FindByHash(w.families, Sha256(t)).Some? && w.families[FindByHash(w.families, Sha256(t)).value].revoked
  {
    var id :| BlockedIn(w, id, t);
  }

  /** A token with no request past the family check gets one only from a request past the blacklist check
      that finds no revoked family. */
  lemma NoneLocatedStep(u: Setup, w: World, e: Event, t: Token)
    requires UniqueCurrent(w.families) && Enabled(u, w, e) && !HasLocated(w, t)
    requires t.Jwt? && (Blocked(w, t) || !HasChecked(w, t))
    ensures !HasLocated(Next(u, w, e), t)
  {
    hide NextFamilies, NextBlacklist, NextLineage, NextIssued;
    var w' := Next(u, w, e);
    if Blocked(w, t) {
      LookupIsBlocked(w, t);
    }
    forall r ensures !LocatedBy(w', r, t) {
      assert !LocatedBy(w, r, t);
    }
  }

  lemma BlockedStep(u: Setup, w: World, e: Event, id: FamilyId, t: Token)
    requires Sound(u, w) && Enabled(u, w, e) && t.Jwt? && BlockedIn(w, id, t) && !HasLocated(w, t)
    requires e.now < ExpiryMs(t.claims)
    ensures BlockedIn(Next(u, w, e), id, t)
  {
    assert id in w.lineage;
    hide NextBlacklist, NextLineage, NextIssued, TokenInv, LineageInv;
    var w' := Next(u, w, e);
    assert OwnerOk(u, w, id);
    forall r ensures !MovedBy(w', r, id, t) {
      assert !MovedBy(w, r, id, t) && !LocatedBy(w, r, t);
    }
    assert !MovedBy(w, e.request, id, t);
  }

  lemma ListedStep(u: Setup, w: World, e: Event, t: Token)
    requires Enabled(u, w, e) && t.Jwt? && e.now < ExpiryMs(t.claims) && ListedToEnd(w, t) && !HasChecked(w, t)
    ensures ListedToEnd(Next(u, w, e), t) && !HasChecked(Next(u, w, e), t)
  {
    ListedStaysListed(u, w, e, t);
    hide NextFamilies, NextBlacklist, NextLineage, NextIssued, ListedToEnd;
  }

  lemma IssuedStays(u: Setup, w: World, e: Event, c: Claims)
    requires Enabled(u, w, e) && IsRefresh(w.issued, c)
    ensures IsRefresh(Next(u, w, e).issued, c)
  {
    hide NextFamilies, NextBlacklist, NextLineage, NextStage;
  }

  /** What cannot be exchanged never can again. */
  lemma DeadStep(u: Setup, w: World, e: Event, c: Claims)
    requires Sound(u, w) && Enabled(u, w, e)
    requires IsRefresh(w.issued, c) && !Exchangeable(u, w, c)
    ensures IsRefresh(Next(u, w, e).issued, c) && !Exchangeable(u, Next(u, w, e), c)
  {
    hide Next, Enabled, TokenInv, LineageInv, HasTime, HasLocated, HasChecked, BlockedIn, ListedToEnd;
    IssuedStays(u, w, e, c);
    var t := Written(c);
    if HasTime(u, Next(u, w, e), c) {
      TimeStep(u, w, e, c);
      NoneLocatedStep(u, w, e, t);
      if Blocked(w, t) {
        var id :| BlockedIn(w, id, t);
        BlockedStep(u, w, e, id, t);
      } else {
        ListedStep(u, w, e, t);
      }
    }
  }

  lemma TimeStep(u: Setup, w: World, e: Event, c: Claims)
    requires TokenInv(u, w) && Enabled(u, w, e) && HasTime(u, Next(u, w, e), c)
    ensures HasTime(u, w, c) && e.now < ExpiryMs(c)
  {
    TimeRunsOut(u, w, e, c);
  }

  lemma {:induction false} DeadForever(u: Setup, run: seq<Event>, i: nat, j: nat, w: World, w': World, c: Claims)
    requires i <= j && Reaches(u, run, i, w) && Reaches(u, run, j, w')
    requires IsRefresh(w.issued, c) && !Exchangeable(u, w, c)
    ensures IsRefresh(w'.issued, c) && !Exchangeable(u, w', c)
  {
    hide Next, Enabled, Sound, Exchangeable, IsRefresh;
    if i < j {
      var before := WorldAt(u, run, j - 1).value;
      DeadForever(u, run, i, j - 1, w, before, c);
      SoundAt(u, run, j - 1, before);
      DeadStep(u, before, run[j - 1], c);
    }
  }

  lemma DeadIsNeverExchanged(u: Setup, run: seq<Event>, i: nat, j: nat, w: World, c: Claims)
    requires i <= j && Reaches(u, run, i, w) && IsRefresh(w.issued, c) && !Exchangeable(u, w, c)
    ensures !ExchangesAt(u, run, j, c)
  {
    hide Next, Enabled, Exchangeable, VerifiesAsRefresh, TokenInv;
    if ExchangesAt(u, run, j, c) {
      var w' := WorldAt(u, run, j).value;
      DeadForever(u, run, i, j, w, w', c);
      TokenInvAt(u, run, j, w');
      ExchangeNeedsExchangeable(u, w', run[j]);
    }
  }

  // ---- What can be exchanged is, by some continuation ----

  /** The run continues by more, whose last event exchanges c. */
  ghost predicate LaterExchange(u: Setup, run: seq<Event>, more: seq<Event>, c: Claims) {
    more != [] && ExchangesAt(u, run + more, |run + more| - 1, c)
  }

  lemma {:induction false} SamePrefix(u: Setup, run: seq<Event>, more: seq<Event>, k: nat)
    requires k <= |run|
    ensures WorldAt(u, run + more, k) == WorldAt(u, run, k)
  {
    hide Next, Enabled;
    if k > 0 {
      SamePrefix(u, run, more, k - 1);
      assert (run + more)[k - 1] == run[k - 1];
    }
  }

  lemma Extend(u: Setup, run: seq<Event>, w: World, e: Event)
    requires Reaches(u, run, |run|, w) && Enabled(u, w, e)
    ensures Reaches(u, run + [e], |run + [e]|, Next(u, w, e))
  {
    hide Next, Enabled;
    SamePrefix(u, run, [e], |run|);
    assert (run + [e])[|run|] == e;
  }

  lemma Prepended(u: Setup, run: seq<Event>, e: Event, more: seq<Event>, c: Claims)
    requires LaterExchange(u, run + [e], more, c)
    ensures LaterExchange(u, run, [e] + more, c)
  {
    hide ExchangesAt;
    assert run + ([e] + more) == run + [e] + more;
  }

  lemma {:induction false} AboveAll(s: set<nat>) returns (n: nat)
    ensures n !in s && forall x :: x in s ==> x < n
    decreases s
  {
    if s == {} {
      n := 0;
    } else {
      var x :| x in s;
      var m := AboveAll(s - {x});
      assert forall y :: y in s ==> y == x || y in s - {x};
      n := if x < m then m else x + 1;
    }
  }

  /** The last millisecond of the token: rows that end before its expiry have ended by then, and the
      second has seen no signature as long as the token has time. */
  function LastMs(c: Claims): nat {
    ExpiryMs(c) - 1
  }

  /** The state is one from which the rest of the continuation starts: the token is signed and has time. */
  ghost predicate Ready(u: Setup, run: seq<Event>, w: World, c: Claims) {
    && Reaches(u, run, |run|, w) && IsRefresh(w.issued, c)
    && w.clock <= LastMs(c) && LastSecond(u, c) !in w.issued
  }

  lemma ReadyStep(u: Setup, run: seq<Event>, w: World, e: Event, c: Claims)
    requires Ready(u, run, w, c) && Enabled(u, w, e) && e.now == LastMs(c)
    requires !e.action.Exchange? && !e.action.SignSession?
    ensures Ready(u, run + [e], Next(u, w, e), c)
  {
    Extend(u, run, w, e);
    hide NextFamilies, NextBlacklist, NextLineage, NextStage, Reaches;
  }

  lemma FromLocated(u: Setup, run: seq<Event>, w: World, r: RequestId, t: Token) returns (more: seq<Event>)
    requires t.Jwt? && Ready(u, run, w, t.claims) && LocatedBy(w, r, t)
    ensures LaterExchange(u, run, more, t.claims)
  {
    hide Next;
    var e := Event(LastMs(t.claims), r, Exchange);
    more := [e];
    SamePrefix(u, run, more, |run|);
    assert (run + more)[|run|] == e;
  }

  /** The lookup goes through when no revoked family has t as its current token. */
  lemma FromLookup(u: Setup, run: seq<Event>, w: World, r: RequestId, t: Token) returns (more: seq<Event>)
    requires t.Jwt? && Ready(u, run, w, t.claims) && r in w.stages && w.stages[r] == Checked(t)
    requires forall id :: IsCurrent(w.families, id, Sha256(t)) ==> !w.families[id].revoked
    ensures LaterExchange(u, run, more, t.claims)
  {
    var e := Event(LastMs(t.claims), r, Locate);
    LookupLocates(u, w, e, t);
    hide Next, Enabled, LaterExchange;
    ReadyStep(u, run, w, e, t.claims);
    more := FromLocated(u, run + [e], Next(u, w, e), r, t);
    Prepended(u, run, e, more, t.claims);
    more := [e] + more;
  }

  lemma LookupLocates(u: Setup, w: World, e: Event, t: Token)
    requires e.action == Locate && e.now >= w.clock && e.request in w.stages && w.stages[e.request] == Checked(t)
    requires forall id :: IsCurrent(w.families, id, Sha256(t)) ==> !w.families[id].revoked
    ensures Enabled(u, w, e) && LocatedBy(Next(u, w, e), e.request, t)
  {
  }

  /** A family old enough is pruned first, and then the lookup finds none. */
  lemma FromPruned(u: Setup, run: seq<Event>, w: World, r: RequestId, id: FamilyId, t: Token) returns (more: seq<Event>)
    requires t.Jwt? && Ready(u, run, w, t.claims) && r in w.stages && w.stages[r] == Checked(t)
    requires UniqueCurrent(w.families) && IsCurrent(w.families, id, Sha256(t))
    requires w.families[id].updatedAt + FAMILY_MAX_AGE_MS < LastMs(t.claims)
    ensures LaterExchange(u, run, more, t.claims)
  {
    var e := Event(LastMs(t.claims), r, PruneFamilies);
    PruningFrees(u, w, e, r, id, t);
    hide Next, Enabled, LaterExchange, UniqueCurrent;
    ReadyStep(u, run, w, e, t.claims);
    more := FromLookup(u, run + [e], Next(u, w, e), r, t);
    Prepended(u, run, e, more, t.claims);
    more := [e] + more;
  }

  lemma PruningFrees(u: Setup, w: World, e: Event, r: RequestId, id: FamilyId, t: Token)
    requires UniqueCurrent(w.families) && IsCurrent(w.families, id, Sha256(t))
    requires e.action == PruneFamilies && e.now >= w.clock && w.families[id].updatedAt + FAMILY_MAX_AGE_MS < e.now
    requires r in w.stages && w.stages[r] == Checked(t)
    ensures Enabled(u, w, e)
    ensures var w' := Next(u, w, e);
            r in w'.stages && w'.stages[r] == Checked(t) && forall i :: !IsCurrent(w'.families, i, Sha256(t))
  {
  }

  /** A rotation under way frees t from its family first, and then the lookup finds none. */
  lemma FromRecorded(u: Setup, run: seq<Event>, w: World, r: RequestId, q: RequestId, id: FamilyId, t: Token) returns (more: seq<Event>)
    requires t.Jwt? && Ready(u, run, w, t.claims) && r in w.stages && w.stages[r] == Checked(t)
    requires LineageInv(w) && UniqueCurrent(w.families) && IsCurrent(w.families, id, Sha256(t))
    requires MovedBy(w, q, id, t) && w.stages[q].Recorded?
    ensures LaterExchange(u, run, more, t.claims)
  {
    var e := Event(LastMs(t.claims), q, Rotate);
    RotationFrees(u, w, e, r, id, t);
    hide Next, Enabled, LaterExchange, LineageInv, UniqueCurrent;
    ReadyStep(u, run, w, e, t.claims);
    more := FromLookup(u, run + [e], Next(u, w, e), r, t);
    Prepended(u, run, e, more, t.claims);
    more := [e] + more;
  }

  lemma RotationFrees(u: Setup, w: World, e: Event, r: RequestId, id: FamilyId, t: Token)
    requires LineageInv(w) && UniqueCurrent(w.families) && IsCurrent(w.families, id, Sha256(t))
    requires e.action == Rotate && e.now >= w.clock && MovedBy(w, e.request, id, t) && w.stages[e.request].Recorded?
    requires r in w.stages && w.stages[r] == Checked(t)
    ensures Enabled(u, w, e)
    ensures var w' := Next(u, w, e);
            r in w'.stages && w'.stages[r] == Checked(t) && forall i :: !IsCurrent(w'.families, i, Sha256(t))
  {
    assert PendingOk(w, e.request) && FamilyLineage(w, id);
  }

  lemma FromExchanged(u: Setup, run: seq<Event>, w: World, r: RequestId, q: RequestId, id: FamilyId, t: Token) returns (more: seq<Event>)
    requires t.Jwt? && Ready(u, run, w, t.claims) && r in w.stages && w.stages[r] == Checked(t)
    requires LineageInv(w) && UniqueCurrent(w.families) && IsCurrent(w.families, id, Sha256(t))
    requires MovedBy(w, q, id, t) && w.stages[q].Exchanged?
    ensures LaterExchange(u, run, more, t.claims)
  {
    var e := Event(LastMs(t.claims), q, Record);
    RecordLeads(u, w, e, r, id, t);
    LineageStep(u, w, e);
    hide Next, Enabled, LaterExchange, LineageInv, UniqueCurrent, MovedBy;
    ReadyStep(u, run, w, e, t.claims);
    more := FromRecorded(u, run + [e], Next(u, w, e), r, q, id, t);
    Prepended(u, run, e, more, t.claims);
    more := [e] + more;
  }

  lemma RecordLeads(u: Setup, w: World, e: Event, r: RequestId, id: FamilyId, t: Token)
    requires e.action == Record && e.now >= w.clock && MovedBy(w, e.request, id, t) && w.stages[e.request].Exchanged?
    requires r in w.stages && w.stages[r] == Checked(t)
    ensures Enabled(u, w, e)
    ensures var w' := Next(u, w, e);
            && w'.families == w.families && r in w'.stages && w'.stages[r] == Checked(t)
            && MovedBy(w', e.request, id, t) && w'.stages[e.request].Recorded?
  {
  }

  lemma FromChecked(u: Setup, run: seq<Event>, w: World, r: RequestId, t: Token) returns (more: seq<Event>)
    requires t.Jwt? && Ready(u, run, w, t.claims) && r in w.stages && w.stages[r] == Checked(t)
    requires LineageInv(w) && UniqueCurrent(w.families) && !Blocked(w, t)
    ensures LaterExchange(u, run, more, t.claims)
  {
    hide LineageInv, LaterExchange, Ready;
    if id :| IsCurrent(w.families, id, Sha256(t)) && w.families[id].revoked {
      assert !BlockedIn(w, id, t);
      if q :| MovedBy(w, q, id, t) {
        if w.stages[q].Exchanged? {
          more := FromExchanged(u, run, w, r, q, id, t);
        } else {
          more := FromRecorded(u, run, w, r, q, id, t);
        }
      } else {
        more := FromPruned(u, run, w, r, id, t);
      }
    } else {
      more := FromLookup(u, run, w, r, t);
    }
  }

  lemma CheckLeads(u: Setup, w: World, e: Event, t: Token)
    requires t.Jwt? && e.action == Check(t) && e.now >= w.clock && e.request !in w.stages && MaySubmit(u, w.issued, t)
    requires !IsListed(w.blacklist, Sha256(t), e.now) && !Blocked(w, t)
    ensures Enabled(u, w, e)
    ensures var w' := Next(u, w, e);
            && w'.families == w.families
            && e.request in w'.stages && w'.stages[e.request] == Checked(t) && !Blocked(w', t)
  {
    var w' := Next(u, w, e);
    forall id ensures !BlockedIn(w', id, t) {
      assert !BlockedIn(w, id, t);
      if q :| MovedBy(w, q, id, t) {
        assert MovedBy(w', q, id, t);
      }
    }
  }

  lemma FromUnlisted(u: Setup, run: seq<Event>, w: World, t: Token) returns (more: seq<Event>)
    requires t.Jwt? && Ready(u, run, w, t.claims) && MaySubmit(u, w.issued, t)
    requires LineageInv(w) && UniqueCurrent(w.families) && !Blocked(w, t) && !ListedToEnd(w, t)
    ensures LaterExchange(u, run, more, t.claims)
  {
    var r := AboveAll(w.stages.Keys);
    var e := Event(LastMs(t.claims), r, Check(t));
    CheckLeads(u, w, e, t);
    LineageStep(u, w, e);
    hide Next, Enabled, LaterExchange, LineageInv, UniqueCurrent, Blocked;
    ReadyStep(u, run, w, e, t.claims);
    more := FromChecked(u, run + [e], Next(u, w, e), r, t);
    Prepended(u, run, e, more, t.claims);
    more := [e] + more;
  }

  /** Among the other texts of a token there is always one that nobody has listed. */
  lemma UnlistedText(w: World, c: Claims) returns (t: Token)
    requires LineageInv(w)
    ensures t.Jwt? && t.claims == c && t != Written(c) && !ListedToEnd(w, t) && !Blocked(w, t)
  {
    var spellings := set h | h in w.blacklist && h.text.Jwt? :: h.text.spelling;
    var n := AboveAll(spellings);
    t := Jwt(c, n + 1);
    assert forall h :: h in w.blacklist && h.text.Jwt? ==> h.text.spelling in spellings;
    forall id ensures !BlockedIn(w, id, t) {
      if id in w.families {
        OtherTextIsNotCurrent(w, t, id);
      }
    }
  }

  lemma ExchangeableIsExchanged(u: Setup, run: seq<Event>, w: World, c: Claims) returns (more: seq<Event>)
    requires Reaches(u, run, |run|, w) && Exchangeable(u, w, c)
    ensures LaterExchange(u, run, more, c)
  {
    SoundAt(u, run, |run|, w);
    hide LineageInv, TokenInv, UniqueCurrent, Blocked, LaterExchange, Reaches, ListedToEnd;
    var t := Written(c);
    if HasLocated(w, t) {
      var r :| LocatedBy(w, r, t);
      more := FromLocated(u, run, w, r, t);
    } else if !u.strictTexts {
      var other := UnlistedText(w, c);
      more := FromUnlisted(u, run, w, other);
    } else if HasChecked(w, t) {
      var r :| r in w.stages && w.stages[r] == Checked(t);
      more := FromChecked(u, run, w, r, t);
    } else {
      more := FromUnlisted(u, run, w, t);
    }
  }

  // ---- The answer is exact ----

  /** In every reachable state of every configuration, a refresh token is exchanged by some continuation
      exactly when it is exchangeable. */
  lemma ExchangeableExactly(u: Setup, run: seq<Event>, w: World, c: Claims)
    requires Reaches(u, run, |run|, w) && IsRefresh(w.issued, c)
    ensures (exists more :: LaterExchange(u, run, more, c)) <==> Exchangeable(u, w, c)
  {
    hide Exchangeable, ExchangesAt;
    if Exchangeable(u, w, c) {
      var more := ExchangeableIsExchanged(u, run, w, c);
    } else {
      forall more ensures !LaterExchange(u, run, more, c) {
        if more != [] {
          SamePrefix(u, run, more, |run|);
          DeadIsNeverExchanged(u, run + more, |run|, |run + more| - 1, w, c);
        }
      }
    }
  }

  // ---- What revoking a user's sessions reaches ----

  /** Password reset, or the reaction to a revoked family. */
  predicate RevokesUser(w: World, e: Event, user: UserId) {
    e.action == RevokeUser(user)
    || (e.action == RevokeReused && e.request in w.stages && w.stages[e.request] == Reused(user))
  }

  /** What a revocation at time now leaves exchangeable, seen before it happens: a token with time left
      that can be submitted in another text; or that a request has already looked up; or that still
      passes the blacklist and is in no family, as the pair of a losing refresh is, or in one that a
      refresh under way rotates on or that is pruned before the token expires. */
  ghost predicate Survives(u: Setup, w: World, c: Claims, now: nat) {
    var t := Written(c);
    && IsRefresh(w.issued, c) && now < ExpiryMs(c) && LastSecond(u, c) !in w.issued
    && (|| !u.strictTexts
        || HasLocated(w, t)
        || ((HasChecked(w, t) || !ListedToEnd(w, t))
            && forall id :: IsCurrent(w.families, id, Sha256(t)) ==>
                 Moving(w, id, t) || now + FAMILY_MAX_AGE_MS + 1 < ExpiryMs(c)))
  }

  lemma RevocationStages(u: Setup, w: World, e: Event, user: UserId, t: Token)
    requires Enabled(u, w, e) && RevokesUser(w, e, user)
    ensures var w' := Next(u, w, e);
            && (HasLocated(w', t) <==> HasLocated(w, t)) && (HasChecked(w', t) <==> HasChecked(w, t))
            && forall id :: Moving(w', id, t) <==> Moving(w, id, t)
  {
    hide NextFamilies, NextBlacklist, NextLineage, NextIssued;
    var w' := Next(u, w, e);
    forall r ensures LocatedBy(w', r, t) <==> LocatedBy(w, r, t) {
    }
    forall r ensures (r in w'.stages && w'.stages[r] == Checked(t)) <==> (r in w.stages && w.stages[r] == Checked(t)) {
    }
    forall r, id ensures MovedBy(w', r, id, t) <==> MovedBy(w, r, id, t) {
    }
  }

  lemma RevocationFamilies(u: Setup, w: World, e: Event, user: UserId, t: Token)
    requires Sound(u, w) && Enabled(u, w, e) && RevokesUser(w, e, user)
    requires IsRefreshToken(w.issued, t) && t.claims.sub == user
    ensures var w' := Next(u, w, e);
            && w'.clock == e.now && w'.issued == w.issued && w'.blacklist == w.blacklist
            && (forall id :: IsCurrent(w'.families, id, Sha256(t)) <==> IsCurrent(w.families, id, Sha256(t)))
            && (forall id :: IsCurrent(w'.families, id, Sha256(t)) ==>
                  w'.families[id].revoked && w'.families[id].updatedAt == e.now)
  {
    hide TokenInv, LineageInv, NextStage, NextLineage;
    var w' := Next(u, w, e);
    forall id ensures IsCurrent(w'.families, id, Sha256(t)) <==> IsCurrent(w.families, id, Sha256(t))
              ensures IsCurrent(w'.families, id, Sha256(t)) ==> w'.families[id].revoked && w'.families[id].updatedAt == e.now {
      assert OwnerOk(u, w, id);
    }
  }

  lemma SurvivesIsExchangeable(u: Setup, w: World, e: Event, user: UserId, c: Claims)
    requires Sound(u, w) && Enabled(u, w, e) && RevokesUser(w, e, user)
    requires IsRefresh(w.issued, c) && c.sub == user
    ensures Exchangeable(u, Next(u, w, e), c) <==> Survives(u, w, c, e.now)
  {
    hide Next, Enabled, Sound, HasLocated, HasChecked, Moving;
    var (w', t) := (Next(u, w, e), Written(c));
    RevocationStages(u, w, e, user, t);
    RevocationFamilies(u, w, e, user, t);
    assert forall id :: BlockedIn(w', id, t) <==>
      IsCurrent(w.families, id, Sha256(t)) && !Moving(w, id, t) && ExpiryMs(c) <= e.now + FAMILY_MAX_AGE_MS + 1;
  }

  /** However requests interleave, a refresh token of the user is exchanged after the user's sessions
      are revoked, by some continuation, exactly when it survives. */
  lemma RevocationReachesExactly(u: Setup, run: seq<Event>, w: World, e: Event, user: UserId, c: Claims)
    requires Reaches(u, run, |run|, w) && Enabled(u, w, e) && RevokesUser(w, e, user)
    requires IsRefresh(w.issued, c) && c.sub == user
    ensures (exists more :: LaterExchange(u, run + [e], more, c)) <==> Survives(u, w, c, e.now)
  {
    hide Next, Enabled, Sound, Survives, Exchangeable, LaterExchange, RevokesUser;
    SoundAt(u, run, |run|, w);
    SurvivesIsExchangeable(u, w, e, user, c);
    IssuedStays(u, w, e, c);
    Extend(u, run, w, e);
    ExchangeableExactly(u, run + [e], Next(u, w, e), c);
  }

  /** In particular the pair that a losing refresh leaves in no family survives while it has time, until
      it is blacklisted. */
  lemma HomelessSurvives(u: Setup, run: seq<Event>, w: World, e: Event, user: UserId, c: Claims)
    requires Reaches(u, run, |run|, w) && Enabled(u, w, e) && RevokesUser(w, e, user)
    requires IsRefresh(w.issued, c) && c.sub == user && Homeless(w, c)
    requires e.now < ExpiryMs(c) && LastSecond(u, c) !in w.issued && !ListedToEnd(w, Written(c))
    ensures exists more :: LaterExchange(u, run + [e], more, c)
  {
    hide Enabled, LaterExchange, RevokesUser, LineageInv, Homeless, Reaches, ListedToEnd;
    LineageAt(u, run, |run|, w);
    forall id ensures !IsCurrent(w.families, id, Sha256(Written(c))) {
      if id in w.families {
        HomelessIsNotCurrent(w, c, id);
      }
    }
    RevocationReachesExactly(u, run, w, e, user, c);
  }

  /** Where texts are submitted as written and lifetimes are shorter than thirty days, a stored family's
      current token that no refresh has under way is never exchanged after the revocation. */
  lemma RevocationIsPermanent(u: Setup, run: seq<Event>, i: nat, j: nat, w: World, user: UserId, c: Claims)
    requires u.strictTexts && 1000 * (u.tokens.refreshTtl + 1) <= FAMILY_MAX_AGE_MS
    requires i < j && i < |run| && Reaches(u, run, i, w) && Enabled(u, w, run[i])
    requires RevokesUser(w, run[i], user) && IsRefresh(w.issued, c) && c.sub == user
    requires exists id :: IsCurrent(w.families, id, Sha256(Written(c)))
    requires forall r :: r in w.stages && (w.stages[r].Located? || w.stages[r].Exchanged? || w.stages[r].Recorded?) ==>
                           w.stages[r].token != Written(c)
    ensures !ExchangesAt(u, run, j, c)
  {
    SoundAt(u, run, i, w);
    var id :| IsCurrent(w.families, id, Sha256(Written(c)));
    assert OwnerOk(u, w, id);
    hide Next, Sound, Exchangeable, ExchangesAt, RevokesUser;
    SurvivesIsExchangeable(u, w, run[i], user, c);
    IssuedStays(u, w, run[i], c);
    assert !Moving(w, id, Written(c));
    DeadIsNeverExchanged(u, run, i + 1, j, Next(u, w, run[i]), c);
  }

  lemma OtherFamiliesStay(u: Setup, w: World, e: Event, user: UserId)
    requires Enabled(u, w, e) && RevokesUser(w, e, user)
    ensures var w' := Next(u, w, e);
            && w'.clock == e.now && w'.issued == w.issued && w'.blacklist == w.blacklist && w'.families.Keys == w.families.Keys
            && (forall id :: id in w.families ==> w'.families[id].currentHash == w.families[id].currentHash)
            && (forall id :: id in w.families && w.families[id].userId != user ==> w'.families[id] == w.families[id])
  {
    hide NextStage, NextLineage;
  }

  /** Revoking a user's sessions leaves the families of every other user as they are, and every token of
      another user that has time left as exchangeable as before. */
  lemma RevocationSparesOthers(u: Setup, w: World, e: Event, user: UserId, c: Claims)
    requires Sound(u, w) && Enabled(u, w, e) && RevokesUser(w, e, user) && c.sub != user
    requires Exchangeable(u, w, c) && HasTime(u, Next(u, w, e), c)
    ensures Exchangeable(u, Next(u, w, e), c)
    ensures forall id :: id in w.families && w.families[id].userId != user ==>
              id in Next(u, w, e).families && Next(u, w, e).families[id] == w.families[id]
  {
    hide Next, Enabled, TokenInv, LineageInv, HasLocated, HasChecked, Moving, UniqueCurrent, RevokesUser;
    var (w', t) := (Next(u, w, e), Written(c));
    OtherFamiliesStay(u, w, e, user);
    RevocationStages(u, w, e, user, t);
    forall id | BlockedIn(w', id, t) ensures BlockedIn(w, id, t) {
      assert OwnerOk(u, w, id);
    }
  }

  /** A token blacklisted to its end that no refresh has past the blacklist check is never exchanged. */
  lemma ListedIsFinal(u: Setup, run: seq<Event>, i: nat, j: nat, w: World, c: Claims)
    requires u.strictTexts && i <= j && Reaches(u, run, i, w) && IsRefresh(w.issued, c)
    requires ListedToEnd(w, Written(c)) && forall r :: !AboutToExchange(w, r, Written(c))
    ensures !ExchangesAt(u, run, j, c)
  {
    hide ExchangesAt, Reaches;
    var t := Written(c);
    forall r ensures !LocatedBy(w, r, t) && !(r in w.stages && w.stages[r] == Checked(t)) {
      assert !AboutToExchange(w, r, t);
    }
    DeadIsNeverExchanged(u, run, i, j, w, c);
  }

  /** A refresh that finds a revoked family goes on to revoke the sessions of the token's own user. */
  lemma ReuseNamesOwner(u: Setup, w: World, e: Event)
    requires Sound(u, w) && Enabled(u, w, e) && e.action == Locate && Next(u, w, e).stages[e.request].Reused?
    ensures var t := w.stages[e.request].token;
            IsRefreshToken(w.issued, t) && Next(u, w, e).stages[e.request] == Reused(t.claims.sub)
  {
    assert OwnerOk(u, w, FindByHash(w.families, Sha256(w.stages[e.request].token)).value);
  }

  // ---- What the store calls of logout and the pruning reach ----

  lemma LogoutListsToEnd(u: Setup, w: World, e: Event, c: Claims)
    requires Enabled(u, w, e) && e.action.ListLogout? && e.action.text == Written(c)
    requires Sha256(Written(c)) !in w.blacklist && ExpiryMs(c) <= e.now + e.action.keepMs
    ensures ListedToEnd(Next(u, w, e), Written(c))
    ensures forall r :: AboutToExchange(Next(u, w, e), r, Written(c)) <==> AboutToExchange(w, r, Written(c))
  {
    hide NextFamilies, NextLineage, NextIssued;
  }

  /** A token that logout lists for at least its lifetime, and that no refresh has past the blacklist check
      then, is never exchanged again. */
  lemma LogoutIsFinal(u: Setup, run: seq<Event>, i: nat, j: nat, w: World, c: Claims)
    requires u.strictTexts && i < j && i < |run| && Reaches(u, run, i, w) && Enabled(u, w, run[i]) && IsRefresh(w.issued, c)
    requires run[i].action.ListLogout? && run[i].action.text == Written(c)
    requires Sha256(Written(c)) !in w.blacklist && ExpiryMs(c) <= run[i].now + run[i].action.keepMs
    requires forall r :: !AboutToExchange(w, r, Written(c))
    ensures !ExchangesAt(u, run, j, c)
  {
    hide Next, Enabled, ExchangesAt, ListedToEnd, AboutToExchange;
    LogoutListsToEnd(u, w, run[i], c);
    IssuedStays(u, w, run[i], c);
    ListedIsFinal(u, run, i + 1, j, Next(u, w, run[i]), c);
  }

  lemma OneRevoked(u: Setup, w: World, e: Event, id: FamilyId, t: Token)
    requires Enabled(u, w, e) && e.action == RevokeOne(id) && IsCurrent(w.families, id, Sha256(t))
    ensures var w' := Next(u, w, e);
            && w'.clock == e.now && w'.issued == w.issued && w'.blacklist == w.blacklist && w'.stages == w.stages
            && w'.families == w.families[id := w.families[id].(revoked := true, updatedAt := e.now)]
  {
  }

  /** After logout revokes the family of c, the token is exchanged by some continuation exactly if it has
      time left and other texts of it can be submitted, or a request had looked it up, or it passes the
      blacklist and a refresh under way rotates the family on, or the family is pruned in time. */
  lemma LogoutReachesExactly(u: Setup, run: seq<Event>, w: World, e: Event, id: FamilyId, c: Claims)
    requires Reaches(u, run, |run|, w) && Enabled(u, w, e) && e.action == RevokeOne(id)
    requires IsRefresh(w.issued, c) && IsCurrent(w.families, id, Sha256(Written(c)))
    ensures (exists more :: LaterExchange(u, run + [e], more, c)) <==>
            var t := Written(c);
            && e.now < ExpiryMs(c) && LastSecond(u, c) !in w.issued
            && (|| !u.strictTexts
                || HasLocated(w, t)
                || ((HasChecked(w, t) || !ListedToEnd(w, t))
                    && (Moving(w, id, t) || e.now + FAMILY_MAX_AGE_MS + 1 < ExpiryMs(c))))
  {
    SoundAt(u, run, |run|, w);
    hide Next, Enabled, LaterExchange, TokenInv, LineageInv, Reaches;
    var (w', t) := (Next(u, w, e), Written(c));
    OneRevoked(u, w, e, id, t);
    Extend(u, run, w, e);
    ExchangeableExactly(u, run + [e], w', c);
    SameStages(w, w', t);
    OnlyFamilyBlocks(w', id, t);
  }

  lemma SameStages(w: World, w': World, t: Token)
    requires w.stages == w'.stages
    ensures (HasLocated(w', t) <==> HasLocated(w, t)) && (HasChecked(w', t) <==> HasChecked(w, t))
    ensures forall id :: Moving(w', id, t) <==> Moving(w, id, t)
  {
    assert forall r :: LocatedBy(w', r, t) <==> LocatedBy(w, r, t);
    assert forall r, id :: MovedBy(w', r, id, t) <==> MovedBy(w, r, id, t);
  }

  lemma OnlyFamilyBlocks(w: World, id: FamilyId, t: Token)
    requires UniqueCurrent(w.families) && t.Jwt? && IsCurrent(w.families, id, Sha256(t))
    ensures Blocked(w, t) <==> BlockedIn(w, id, t)
  {
  }

  /** Pruning the blacklist leaves only rows in force, and changes nothing about what can be exchanged. */
  lemma BlacklistPruningIsInvisible(u: Setup, w: World, e: Event, c: Claims)
    requires Enabled(u, w, e) && e.action == PruneBlacklist && e.now < ExpiryMs(c)
    ensures Exchangeable(u, Next(u, w, e), c) <==> Exchangeable(u, w, c)
    ensures forall h :: h in Next(u, w, e).blacklist ==> e.now < Next(u, w, e).blacklist[h]
  {
    var (w', t) := (Next(u, w, e), Written(c));
    assert w'.families == w.families && w'.stages == w.stages && w'.issued == w.issued;
    assert ListedToEnd(w', t) <==> ListedToEnd(w, t);
    SameStages(w, w', t);
    hide Next, NextBlacklist, ListedToEnd, HasLocated, HasChecked, Moving;
    assert forall id :: BlockedIn(w', id, t) <==> BlockedIn(w, id, t);
  }
}
