/**
 Logins on one account, cut at the password check that is awaited between the lock check and the record
 of its outcome. Any number of them may be under way.
 */
module LoginOverlap {
  import opened Base
  import opened Lockouts

  type RequestId = nat

  /** Begin is isLocked; Finish is what follows the password check, if there was one. */
  datatype CutEvent = Begin(request: RequestId, now: nat) | Finish(request: RequestId, passwordOk: bool, now: nat)

  /** inFlight holds the logins whose password is being checked. */
  datatype State = State(account: Account, inFlight: set<RequestId>)

  datatype CutAnswer = Admitted | Refused(until: nat) | Succeeded | Rejected(locked: bool)

  predicate CanHappen(s: State, e: CutEvent) {
    match e
    case Begin(r, _) => r !in s.inFlight
    case Finish(r, _, _) => r in s.inFlight
  }

  function After(cfg: Config, x: Adapter, s: State, e: CutEvent): (State, CutAnswer) {
    match e
    case Begin(r, now) =>
      var a := Settled(s.account, now);
      if a.lockedUntil.Some? then (State(a, s.inFlight), Refused(a.lockedUntil.value))
      else (State(a, s.inFlight + {r}), Admitted)
    case Finish(r, ok, now) =>
      if ok then (State(CLEAR, s.inFlight - {r}), Succeeded)
      else
        var (a, locked) := Record(cfg, x, s.account, now);
        (State(a, s.inFlight - {r}), Rejected(locked))
  }

  function StateAt(cfg: Config, x: Adapter, s: State, run: seq<CutEvent>, k: nat): State
    requires k <= |run|
  {
    if k == 0 then s else After(cfg, x, StateAt(cfg, x, s, run, k - 1), run[k - 1]).0
  }

  predicate ValidPrefix(cfg: Config, x: Adapter, s: State, run: seq<CutEvent>, k: nat)
    requires k <= |run|
  {
    k == 0 || (ValidPrefix(cfg, x, s, run, k - 1) && CanHappen(StateAt(cfg, x, s, run, k - 1), run[k - 1]))
  }

  // ---- How many password checks pass a lock ----

  /** The password checks that end among the first k events. */
  function Checks(run: seq<CutEvent>, k: nat): nat
    requires k <= |run|
  {
    if k == 0 then 0 else Checks(run, k - 1) + if run[k - 1].Finish? then 1 else 0
  }

  /** From the moment of a lock, while it lasts and no password turns out right, no login gets to its password check: those
      that end are exactly the ones that were under way when the lock came, and the rest of these are
      still under way. This is so in every adapter. */
  lemma {:induction false} LockAdmitsNoCheck(cfg: Config, x: Adapter, s: State, run: seq<CutEvent>, until: nat, k: nat)
    requires k <= |run| && ValidPrefix(cfg, x, s, run, k) && s.account.lockedUntil == Some(until)
    requires forall i :: 0 <= i < k ==>
               run[i].now < until <= run[i].now + cfg.lockoutDurationMs && !(run[i].Finish? && run[i].passwordOk)
    ensures Checks(run, k) + |StateAt(cfg, x, s, run, k).inFlight| == |s.inFlight|
    ensures StateAt(cfg, x, s, run, k).inFlight <= s.inFlight
    ensures StateAt(cfg, x, s, run, k).account.lockedUntil.Some? && StateAt(cfg, x, s, run, k).account.lockedUntil.value >= until
    ensures s.account.attempts <= StateAt(cfg, x, s, run, k).account.attempts
  {
    hide CanHappen, After;
    if k > 0 {
      LockAdmitsNoCheck(cfg, x, s, run, until, k - 1);
      LockedStep(cfg, x, StateAt(cfg, x, s, run, k - 1), run[k - 1], until);
    }
  }

  lemma LockedStep(cfg: Config, x: Adapter, s: State, e: CutEvent, until: nat)
    requires CanHappen(s, e) && s.account.lockedUntil.Some? && s.account.lockedUntil.value >= until
    requires e.now < until <= e.now + cfg.lockoutDurationMs && !(e.Finish? && e.passwordOk)
    ensures var s' := After(cfg, x, s, e).0;
            && s'.inFlight == (if e.Finish? then s.inFlight - {e.request} else s.inFlight)
            && (e.Finish? ==> |s'.inFlight| == |s.inFlight| - 1)
            && s'.account.lockedUntil.Some? && s'.account.lockedUntil.value >= until
            && s.account.attempts <= s'.account.attempts
  {
    if e.Finish? {
      assert e.request in s.inFlight;
    }
  }

  /** n logins that begin at once. */
  function Crowd(n: nat): (run: seq<CutEvent>)
    ensures |run| == n
  {
    seq(n, i requires 0 <= i < n => Begin(i, 0))
  }

  /** Their number is not bounded by maxAttempts: any number of logins can be under way before the first
      failure is recorded. */
  lemma {:induction false} AnyNumberBegins(cfg: Config, x: Adapter, n: nat, k: nat)
    requires k <= n
    ensures var s := StateAt(cfg, x, State(CLEAR, {}), Crowd(n), k);
            ValidPrefix(cfg, x, State(CLEAR, {}), Crowd(n), k) && s.account == CLEAR
            && |s.inFlight| == k && forall r :: r in s.inFlight ==> r < k
  {
    hide After;
    if k > 0 {
      AnyNumberBegins(cfg, x, n, k - 1);
      BeginStep(cfg, x, StateAt(cfg, x, State(CLEAR, {}), Crowd(n), k - 1), k - 1);
    }
  }

  lemma BeginStep(cfg: Config, x: Adapter, s: State, r: RequestId)
    requires s.account == CLEAR && r !in s.inFlight
    ensures After(cfg, x, s, Begin(r, 0)) == (State(CLEAR, s.inFlight + {r}), Admitted)
    ensures |s.inFlight + {r}| == |s.inFlight| + 1
  {
  }

  /** A login under way that turns out right clears the account, lock and all, in every adapter. */
  lemma RightPasswordClears(cfg: Config, x: Adapter, s: State, run: seq<CutEvent>, k: nat)
    requires k < |run| && run[k].Finish? && run[k].passwordOk
    ensures StateAt(cfg, x, s, run, k + 1).account == Account(0, None)
  {
  }

  // ---- When the adapters still agree ----

  /** Event k leaves the three adapters with one state and gives one answer. */
  predicate AgreeOn(cfg: Config, run: seq<CutEvent>, k: nat)
    requires k < |run|
  {
    var start := State(CLEAR, {});
    After(cfg, Memory, StateAt(cfg, Memory, start, run, k), run[k])
    == After(cfg, Sqlite, StateAt(cfg, Sqlite, start, run, k), run[k])
    == After(cfg, Pg, StateAt(cfg, Pg, start, run, k), run[k])
  }

  /** Event k records a failure on an account that carries a lock, in force or expired. */
  predicate FailsOnLock(cfg: Config, run: seq<CutEvent>, k: nat)
    requires k < |run|
  {
    run[k].Finish? && !run[k].passwordOk && StateAt(cfg, Memory, State(CLEAR, {}), run, k).account.lockedUntil.Some?
  }

  lemma {:induction false} LockIsFull(cfg: Config, x: Adapter, run: seq<CutEvent>, k: nat)
    requires k <= |run|
    ensures var a := StateAt(cfg, x, State(CLEAR, {}), run, k).account;
            a.lockedUntil.Some? ==> a.attempts >= cfg.maxAttempts
  {
    if k > 0 {
      LockIsFull(cfg, x, run, k - 1);
    }
  }

  lemma StatesAgree(cfg: Config, run: seq<CutEvent>, k: nat)
    requires k <= |run| && forall m :: 0 <= m < k ==> AgreeOn(cfg, run, m)
    ensures var start := State(CLEAR, {});
            StateAt(cfg, Memory, start, run, k) == StateAt(cfg, Sqlite, start, run, k) == StateAt(cfg, Pg, start, run, k)
  {
    if k > 0 {
      assert AgreeOn(cfg, run, k - 1);
    }
  }

  lemma StepAgreesExactly(cfg: Config, run: seq<CutEvent>, k: nat)
    requires k < |run| && forall m :: 0 <= m < k ==> AgreeOn(cfg, run, m)
    ensures AgreeOn(cfg, run, k) <==> !FailsOnLock(cfg, run, k)
  {
    StatesAgree(cfg, run, k);
    LockIsFull(cfg, Memory, run, k);
    RecordsAgree(cfg, StateAt(cfg, Memory, State(CLEAR, {}), run, k).account, run[k].now);
    hide MemoryRecord, SqliteRecord, PgRecord, StateAt;
  }

  /** Over every run of logins that overlap, the three adapters give the same answers and keep the same
      account if and only if no failure is recorded on an account that carries a lock. */
  lemma {:induction false} AdaptersAgreeExactly(cfg: Config, run: seq<CutEvent>, k: nat)
    requires k <= |run|
    ensures (forall m :: 0 <= m < k ==> AgreeOn(cfg, run, m)) <==> (forall m :: 0 <= m < k ==> !FailsOnLock(cfg, run, m))
  {
    hide AgreeOn, FailsOnLock;
    if k > 0 {
      AdaptersAgreeExactly(cfg, run, k - 1);
      if forall m :: 0 <= m < k - 1 ==> AgreeOn(cfg, run, m) {
        StepAgreesExactly(cfg, run, k - 1);
      }
    }
  }
}
