/**
 The service operations that issue a verification token, cut at the await between the withdrawal of the
 older tokens and the storing of the new one. This gap is there in both repositories.
 */
module IssueOverlap {
  import opened Base
  import opened VerificationTokens

  /** A Store names the event that was the withdrawal of the same request. */
  datatype Step =
    | Register(userId: string, raw: string)
    | Withdraw(userId: string, kind: Kind)
    | Store(withdrawal: nat, ttlMs: int, raw: string)
    | Present(raw: string, kind: Kind)
    | PruneTokens

  datatype CutStep = CutStep(step: Step, now: int)

  predicate Stores(ss: seq<CutStep>, k: nat)
    requires k < |ss|
  {
    ss[k].step.Register? || ss[k].step.Store?
  }

  predicate WellFormed(ss: seq<CutStep>) {
    forall k :: 0 <= k < |ss| && ss[k].step.Store? ==> ss[k].step.withdrawal < k && ss[ss[k].step.withdrawal].step.Withdraw?
  }

  /** The table operation of event k. */
  function OpAt(ss: seq<CutStep>, k: nat): Op
    requires WellFormed(ss) && k < |ss|
  {
    match ss[k].step
    case Register(userId, raw) => Create(userId, EmailVerification, EMAIL_VERIFY_TTL, raw)
    case Withdraw(userId, kind) => InvalidateAll(userId, kind)
    case Store(w, ttlMs, raw) => Create(ss[w].step.userId, ss[w].step.kind, ttlMs, raw)
    case Present(raw, kind) => Verify(raw, kind)
    case PruneTokens => Prune
  }

  function Ops(ss: seq<CutStep>): (es: seq<Event>)
    requires WellFormed(ss)
    ensures |es| == |ss|
  {
    seq(|ss|, k requires 0 <= k < |ss| => Event(OpAt(ss, k), ss[k].now))
  }

  /** register stores a token for a user just made. */
  predicate NewUsers(ss: seq<CutStep>)
    requires WellFormed(ss)
  {
    forall i, j :: 0 <= i < j < |ss| && Stores(ss, i) && ss[j].step.Register? ==>
      OpAt(ss, i).userId != ss[j].step.userId
  }

  predicate ValidRun(ss: seq<CutStep>) {
    WellFormed(ss) && NewUsers(ss) && ValidPrefix(Ops(ss), |ss|)
  }

  /** Events i and j store tokens of one user and kind. */
  predicate Alike(ss: seq<CutStep>, i: nat, j: nat)
    requires WellFormed(ss) && i < |ss| && j < |ss|
  {
    Stores(ss, i) && Stores(ss, j) && OpAt(ss, i).userId == OpAt(ss, j).userId && OpAt(ss, i).kind == OpAt(ss, j).kind
  }

  function GrantOf(ss: seq<CutStep>, k: nat): Grant
    requires WellFormed(ss) && k < |ss| && Stores(ss, k)
  {
    Grant(OpAt(ss, k).userId, OpAt(ss, k).kind, ss[k].now + OpAt(ss, k).ttlMs)
  }

  /** The token that event k stored is usable in both tables before event n. */
  predicate UsableAt(ss: seq<CutStep>, k: nat, n: nat)
    requires ValidRun(ss) && k < |ss| && Stores(ss, k) && n <= |ss|
  {
    && Usable(WorldAt(Ops(ss), n).sqlite, OpAt(ss, k).raw, GrantOf(ss, k))
    && Usable(WorldAt(Ops(ss), n).pg, OpAt(ss, k).raw, GrantOf(ss, k))
  }

  predicate UsableInEither(ss: seq<CutStep>, k: nat, n: nat)
    requires ValidRun(ss) && k < |ss| && Stores(ss, k) && n <= |ss|
  {
    || Usable(WorldAt(Ops(ss), n).sqlite, OpAt(ss, k).raw, GrantOf(ss, k))
    || Usable(WorldAt(Ops(ss), n).pg, OpAt(ss, k).raw, GrantOf(ss, k))
  }

  predicate Unexpired(ss: seq<CutStep>, k: nat, n: nat)
    requires ValidRun(ss) && k < |ss| && Stores(ss, k) && n <= |ss|
  {
    WorldAt(Ops(ss), n).clock < GrantOf(ss, k).expiresAt
  }

  /** A stored token is usable, in one table as in the other, exactly while nothing ended its grant. */
  lemma UsableIsUndisturbed(ss: seq<CutStep>, k: nat, n: nat)
    requires ValidRun(ss) && k < n <= |ss| && Stores(ss, k) && Unexpired(ss, k, n)
    ensures UsableAt(ss, k, n) <==> Undisturbed(Ops(ss), k, n, OpAt(ss, k).raw, GrantOf(ss, k))
    ensures UsableInEither(ss, k, n) <==> UsableAt(ss, k, n)
  {
    hide WorldAt, Usable, Undisturbed, ValidPrefix;
    var (es, raw, g) := (Ops(ss), OpAt(ss, k).raw, GrantOf(ss, k));
    ValidBefore(es, n, |es|);
    TablesAreHistory(es, n, raw, g);
    assert Grants(es[k], raw, g);
    if Outstanding(es, n, raw, g) {
      var i :| 0 <= i < n && Grants(es[i], raw, g) && Undisturbed(es, i, n, raw, g);
      GrantedOnce(es, i, k, n, raw, g, g);
    }
  }

  /** Two tokens of one user and kind are usable at once only if the later store's withdrawal came before
      the earlier store: their requests overlapped. */
  lemma TwoUsableOverlap(ss: seq<CutStep>, i: nat, j: nat, n: nat)
    requires ValidRun(ss) && i < j < n <= |ss| && Alike(ss, i, j)
    requires Unexpired(ss, i, n) && Unexpired(ss, j, n) && UsableInEither(ss, i, n) && UsableInEither(ss, j, n)
    ensures ss[j].step.Store? && ss[j].step.withdrawal < i
  {
    hide WorldAt, Usable, ValidPrefix, UsableInEither, UsableAt;
    UsableIsUndisturbed(ss, i, n);
    assert ss[j].step.Store? ==> Ops(ss)[ss[j].step.withdrawal].op == InvalidateAll(OpAt(ss, j).userId, OpAt(ss, j).kind);
  }

  /** Nothing but the withdrawal of store j ends one of the two grants before event n. */
  predicate NothingElse(ss: seq<CutStep>, i: nat, j: nat, n: nat)
    requires WellFormed(ss) && i < j < n <= |ss| && Alike(ss, i, j) && ss[j].step.Store?
  {
    && (forall k :: i < k < n && k != ss[j].step.withdrawal ==> !Ends(OpAt(ss, k), OpAt(ss, i).raw, GrantOf(ss, i)))
    && (forall k :: j < k < n ==> !Ends(OpAt(ss, k), OpAt(ss, j).raw, GrantOf(ss, j)))
  }

  /** And if nothing else ends them, the two are usable at once exactly in that case. */
  lemma TwoUsableExactly(ss: seq<CutStep>, i: nat, j: nat, n: nat)
    requires ValidRun(ss) && i < j < n <= |ss| && Alike(ss, i, j) && ss[j].step.Store? && NothingElse(ss, i, j, n)
    requires Unexpired(ss, i, n) && Unexpired(ss, j, n)
    ensures UsableAt(ss, i, n) && UsableAt(ss, j, n) <==> ss[j].step.withdrawal < i
  {
    hide WorldAt, Usable, ValidPrefix, UsableInEither, UsableAt;
    UsableIsUndisturbed(ss, i, n);
    UsableIsUndisturbed(ss, j, n);
    if UsableAt(ss, i, n) && UsableAt(ss, j, n) {
      TwoUsableOverlap(ss, i, j, n);
    }
  }

  /** Two overlapping forgotPassword requests of one user. */
  function TwoRequests(): seq<CutStep> {
    [CutStep(Withdraw("u", PasswordReset), 0), CutStep(Withdraw("u", PasswordReset), 0),
     CutStep(Store(0, PASSWORD_RESET_TTL, "s"), 0), CutStep(Store(1, PASSWORD_RESET_TTL, "t"), 0)]
  }

  lemma TwoRequestsAreValid()
    ensures ValidRun(TwoRequests()) && WorldAt(Ops(TwoRequests()), 4).clock == 0
  {
    var ss := TwoRequests();
    var es := Ops(ss);
    assert WorldAt(es, 1).issued == {} && ValidPrefix(es, 1);
    assert WorldAt(es, 2).issued == {} && ValidPrefix(es, 2);
    assert WorldAt(es, 3).issued == {"s"} && ValidPrefix(es, 3);
    assert ValidPrefix(es, 4);
  }

  /** Afterwards both tokens are usable, in both tables. */
  lemma TwoRequestsLeaveTwo()
    ensures ValidRun(TwoRequests()) && UsableAt(TwoRequests(), 2, 4) && UsableAt(TwoRequests(), 3, 4)
  {
    hide WorldAt, ValidPrefix, UsableAt;
    TwoRequestsAreValid();
    TwoUsableExactly(TwoRequests(), 2, 3, 4);
  }
}
