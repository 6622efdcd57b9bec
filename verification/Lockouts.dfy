/** Account lockout: the in-memory, SQLite and Postgres adapters of one port. */
module Lockouts {
  import opened Base

  type Positive = n: nat | n > 0 witness 1

  datatype Config = Config(maxAttempts: Positive, lockoutDurationMs: Positive)

  /** The counter and the lock of one account; an account nobody failed on is clear. */
  datatype Account = Account(attempts: nat, lockedUntil: Option<nat>)

  const CLEAR := Account(0, None)

  // ---- What the operations do to one account ----

  predicate Locked(a: Account, now: nat) {
    a.lockedUntil.Some? && a.lockedUntil.value > now
  }

  /** isLocked, the same in the three adapters: an expired lock is cleared. */
  function Settled(a: Account, now: nat): Account {
    if a.lockedUntil.Some? && a.lockedUntil.value <= now then CLEAR else a
  }

  /** One more failure, with the lock that the limit brings; and whether it brings it. */
  function Counted(cfg: Config, a: Account, now: nat): (Account, bool) {
    if a.attempts + 1 >= cfg.maxAttempts
    then (Account(a.attempts + 1, Some(now + cfg.lockoutDurationMs)), true)
    else (Account(a.attempts + 1, a.lockedUntil), false)
  }

  function MemoryRecord(cfg: Config, a: Account, now: nat): (Account, bool) {
    if Locked(a, now) then (a, true) else Counted(cfg, Settled(a, now), now)
  }

  /** SQLite lets the first failure after an expired lock pass without looking at the limit. */
  function SqliteRecord(cfg: Config, a: Account, now: nat): (Account, bool) {
    if Locked(a, now) then (a, true)
    else if a.lockedUntil.Some? then (Account(1, None), false)
    else Counted(cfg, a, now)
  }

  /** Postgres counts, and prolongs a lock, without looking at the lock. */
  function PgRecord(cfg: Config, a: Account, now: nat): (Account, bool) {
    Counted(cfg, a, now)
  }

  // ---- The adapters ----

  class InMemoryAccountLockout {
    const config: Config
    var store: map<string, Account>

    constructor (config: Config)
      ensures this.config == config && store == map[]
    {
      this.config := config;
      store := map[];
    }

    function Of(email: string): Account
      reads this
    {
      if email in store then store[email] else CLEAR
    }

    method RecordFailedAttempt(email: string, now: nat) returns (locked: bool)
      modifies this
      ensures (Of(email), locked) == MemoryRecord(config, old(Of(email)), now)
      ensures forall e :: e != email ==> Of(e) == old(Of(e))
    {
      if email !in store {
        store := store[email := Account(0, None)];
      }
      var entry := store[email];
      if entry.lockedUntil.Some? && entry.lockedUntil.value > now {
        return true;
      }
      if entry.lockedUntil.Some? && entry.lockedUntil.value <= now {
        entry := Account(0, None);
      }
      entry := entry.(attempts := entry.attempts + 1);
      if entry.attempts >= config.maxAttempts {
        entry := entry.(lockedUntil := Some(now + config.lockoutDurationMs));
        locked := true;
      } else {
        locked := false;
      }
      store := store[email := entry];
    }

    method ResetAttempts(email: string)
      modifies this
      ensures Of(email) == CLEAR
      ensures forall e :: e != email ==> Of(e) == old(Of(e))
    {
      store := store - {email};
    }

    method IsLocked(email: string, now: nat) returns (until: Option<nat>)
      modifies this
      ensures Of(email) == Settled(old(Of(email)), now) && until == Of(email).lockedUntil
      ensures forall e :: e != email ==> Of(e) == old(Of(e))
    {
      if email !in store || store[email].lockedUntil.None? {
        return None;
      }
      if store[email].lockedUntil.value <= now {
        store := store[email := Account(0, None)];
        return None;
      }
      return store[email].lockedUntil;
    }

    /** The lockout discipline of login: the account is consulted first, and the outcome of the
        password check is recorded only when it is not locked. */
    method Login(email: string, passwordOk: bool, now: nat) returns (answer: LoginAnswer)
      modifies this
      ensures (Of(email), answer) == LoginStep(config, Memory, old(Of(email)), Attempt(passwordOk, now))
      ensures forall e :: e != email ==> Of(e) == old(Of(e))
    {
      var until := IsLocked(email, now);
      if until.Some? {
        return Blocked(until.value);
      }
      if passwordOk {
        ResetAttempts(email);
        return Passed;
      }
      var locked := RecordFailedAttempt(email, now);
      return Failed(locked);
    }
  }

  /** The two columns of the users table; only registered emails have a row. */
  class SqliteAccountLockout {
    const config: Config
    var users: map<string, Account>

    constructor (config: Config, emails: set<string>)
      ensures this.config == config && users == map e | e in emails :: CLEAR
    {
      this.config := config;
      users := map e | e in emails :: CLEAR;
    }

    method RecordFailedAttempt(email: string, now: nat) returns (locked: bool)
      modifies this
      ensures email !in old(users) ==> users == old(users) && !locked
      ensures email in old(users) ==>
                (users, locked) == (old(users)[email := SqliteRecord(config, old(users)[email], now).0],
                                    SqliteRecord(config, old(users)[email], now).1)
    {
      if email !in users {
        return false;
      }
      var row := users[email];
      if row.lockedUntil.Some? && row.lockedUntil.value > now {
        assert users == users[email := row];
        return true;
      }
      if row.lockedUntil.Some? && row.lockedUntil.value <= now {
        users := users[email := Account(0, None)];
        users := users[email := users[email].(attempts := users[email].attempts + 1)];
        assert users == old(users)[email := Account(1, None)];
        return false;
      }
      users := users[email := row.(attempts := row.attempts + 1)];
      var newCount := row.attempts + 1;
      if newCount >= config.maxAttempts {
        users := users[email := Account(newCount, Some(now + config.lockoutDurationMs))];
        assert users == old(users)[email := users[email]];
        return true;
      }
      return false;
    }

    method ResetAttempts(email: string)
      modifies this
      ensures users == if email in old(users) then old(users)[email := CLEAR] else old(users)
    {
      if email in users {
        users := users[email := Account(0, None)];
      }
    }

    method IsLocked(email: string, now: nat) returns (until: Option<nat>)
      modifies this
      ensures email !in old(users) ==> users == old(users) && until == None
      ensures email in old(users) ==>
                users == old(users)[email := Settled(old(users)[email], now)] && until == users[email].lockedUntil
    {
      if email !in users || users[email].lockedUntil.None? {
        assert email in users ==> users == users[email := users[email]];
        return None;
      }
      if users[email].lockedUntil.value <= now {
        users := users[email := Account(0, None)];
        return None;
      }
      assert users == users[email := users[email]];
      return users[email].lockedUntil;
    }
  }

  class PgAccountLockout {
    const options: Config
    var users: map<string, Account>

    constructor (options: Config, emails: set<string>)
      ensures this.options == options && users == map e | e in emails :: CLEAR
    {
      this.options := options;
      users := map e | e in emails :: CLEAR;
    }

    method RecordFailedAttempt(email: string, now: nat) returns (locked: bool)
      modifies this
      ensures email !in old(users) ==> users == old(users) && !locked
      ensures email in old(users) ==>
                (users, locked) == (old(users)[email := PgRecord(options, old(users)[email], now).0],
                                    PgRecord(options, old(users)[email], now).1)
    {
      if email in users {
        users := users[email := users[email].(attempts := users[email].attempts + 1)];
      }
      if email !in users {
        return false;
      }
      var attempts := users[email].attempts;
      if attempts >= options.maxAttempts {
        var lockUntil := now + options.lockoutDurationMs;
        users := users[email := Account(attempts, Some(lockUntil))];
        assert users == old(users)[email := users[email]];
        return true;
      }
      return false;
    }

    method ResetAttempts(email: string)
      modifies this
      ensures users == if email in old(users) then old(users)[email := CLEAR] else old(users)
    {
      if email in users {
        users := users[email := Account(0, None)];
      }
    }

    method IsLocked(email: string, now: nat) returns (until: Option<nat>)
      modifies this
      ensures email !in old(users) ==> users == old(users) && until == None
      ensures email in old(users) ==>
                users == old(users)[email := Settled(old(users)[email], now)] && until == users[email].lockedUntil
    {
      if email !in users {
        return None;
      }
      var lockedUntil := users[email].lockedUntil;
      if lockedUntil.None? {
        assert users == users[email := users[email]];
        return None;
      }
      if lockedUntil.value <= now {
        users := users[email := Account(0, None)];
        return None;
      }
      assert users == users[email := users[email]];
      return lockedUntil;
    }
  }

  // ---- Runs of logins on one account ----

  datatype Adapter = Memory | Sqlite | Pg

  datatype Attempt = Attempt(passwordOk: bool, now: nat)

  datatype LoginAnswer = Blocked(until: nat) | Failed(locked: bool) | Passed

  function Record(cfg: Config, adapter: Adapter, a: Account, now: nat): (Account, bool) {
    match adapter
    case Memory => MemoryRecord(cfg, a, now)
    case Sqlite => SqliteRecord(cfg, a, now)
    case Pg => PgRecord(cfg, a, now)
  }

  function LoginStep(cfg: Config, adapter: Adapter, a: Account, l: Attempt): (Account, LoginAnswer) {
    var settled := Settled(a, l.now);
    if settled.lockedUntil.Some? then (settled, Blocked(settled.lockedUntil.value))
    else if l.passwordOk then (CLEAR, Passed)
    else
      var (a', locked) := Record(cfg, adapter, settled, l.now);
      (a', Failed(locked))
  }

  function AccountAt(cfg: Config, adapter: Adapter, run: seq<Attempt>, k: nat): Account
    requires k <= |run|
  {
    if k == 0 then CLEAR else LoginStep(cfg, adapter, AccountAt(cfg, adapter, run, k - 1), run[k - 1]).0
  }

  function AnswerAt(cfg: Config, adapter: Adapter, run: seq<Attempt>, k: nat): LoginAnswer
    requires k < |run|
  {
    LoginStep(cfg, adapter, AccountAt(cfg, adapter, run, k), run[k]).1
  }

  /** Over every sequence of atomic logins the three adapters keep the same account and give the same
      answers, although their failure counting differs on a locked account. */
  lemma {:induction false} AdaptersAgree(cfg: Config, x: Adapter, y: Adapter, run: seq<Attempt>, k: nat)
    requires k <= |run|
    ensures AccountAt(cfg, x, run, k) == AccountAt(cfg, y, run, k)
    ensures k < |run| ==> AnswerAt(cfg, x, run, k) == AnswerAt(cfg, y, run, k)
  {
    if k > 0 {
      AdaptersAgree(cfg, x, y, run, k - 1);
    }
  }

  // ---- The port without the discipline of login ----

  datatype Call = RecordCall(now: nat) | ResetCall | IsLockedCall(now: nat)

  /** The account after any calls of the port, in any order. */
  function AccountAfter(cfg: Config, x: Adapter, calls: seq<Call>): Account {
    if calls == [] then CLEAR else
      var a := AccountAfter(cfg, x, calls[..|calls| - 1]);
      match calls[|calls| - 1]
      case RecordCall(now) => Record(cfg, x, a, now).0
      case ResetCall => CLEAR
      case IsLockedCall(now) => Settled(a, now)
  }

  /** A lock comes with a full count. */
  lemma {:induction false} LockMeansFull(cfg: Config, x: Adapter, calls: seq<Call>)
    ensures var a := AccountAfter(cfg, x, calls);
            a.lockedUntil.Some? ==> a.attempts >= cfg.maxAttempts
  {
    if calls != [] {
      LockMeansFull(cfg, x, calls[..|calls| - 1]);
    }
  }

  lemma RecordsAgree(cfg: Config, a: Account, now: nat)
    requires a.lockedUntil.Some? ==> a.attempts >= cfg.maxAttempts
    ensures MemoryRecord(cfg, a, now) == SqliteRecord(cfg, a, now) == PgRecord(cfg, a, now) <==> a.lockedUntil.None?
  {
  }

  /** After any calls of the port, a failure recorded without consulting the lock is treated alike by
      the three adapters exactly when the account carries no lock, expired or not. */
  lemma RecordsAgreeExactly(cfg: Config, x: Adapter, calls: seq<Call>, now: nat)
    ensures var a := AccountAfter(cfg, x, calls);
            MemoryRecord(cfg, a, now) == SqliteRecord(cfg, a, now) == PgRecord(cfg, a, now) <==> a.lockedUntil.None?
  {
    LockMeansFull(cfg, x, calls);
    RecordsAgree(cfg, AccountAfter(cfg, x, calls), now);
  }

  /** What each adapter makes of a failure recorded on an account that carries a lock. In force, the lock
      is left alone by two and prolonged by Postgres; expired, it is forgotten by two, of which SQLite does
      not look at the limit, and brought back by Postgres. */
  lemma RecordOnLock(cfg: Config, a: Account, until: nat, now: nat)
    requires a.lockedUntil == Some(until) && a.attempts >= cfg.maxAttempts
    ensures PgRecord(cfg, a, now) == (Account(a.attempts + 1, Some(now + cfg.lockoutDurationMs)), true)
    ensures now < until ==> MemoryRecord(cfg, a, now) == SqliteRecord(cfg, a, now) == (a, true)
    ensures until <= now ==> SqliteRecord(cfg, a, now) == (Account(1, None), false)
    ensures until <= now ==>
              MemoryRecord(cfg, a, now) == if cfg.maxAttempts == 1 then (Account(1, Some(now + cfg.lockoutDurationMs)), true)
                                           else (Account(1, None), false)
  {
  }

  // ---- When an account locks, and for how long ----

  /** Login k finds the account without failures: at the start, after a success, or once a lock is over. */
  predicate StartsAfresh(cfg: Config, x: Adapter, run: seq<Attempt>, k: nat)
    requires k < |run|
  {
    Settled(AccountAt(cfg, x, run, k), run[k].now) == CLEAR
  }

  /** A login is blocked exactly while a lock is in force, and otherwise decided by the password. */
  lemma AnsweredExactly(cfg: Config, x: Adapter, run: seq<Attempt>, k: nat)
    requires k < |run|
    ensures var (a, answer) := (AccountAt(cfg, x, run, k), AnswerAt(cfg, x, run, k));
            var locked := a.lockedUntil.Some? && run[k].now < a.lockedUntil.value;
            && (answer.Blocked? <==> locked) && (locked ==> answer.until == a.lockedUntil.value)
            && (answer == Passed <==> !locked && run[k].passwordOk)
            && (answer.Failed? <==> !locked && !run[k].passwordOk)
  {
  }

  /** After a successful login the next one starts afresh, so it takes maxAttempts new failures to lock. */
  lemma SuccessClears(cfg: Config, x: Adapter, run: seq<Attempt>, k: nat)
    requires k + 1 < |run| && AnswerAt(cfg, x, run, k) == Passed
    ensures AccountAt(cfg, x, run, k + 1) == Account(0, None) && StartsAfresh(cfg, x, run, k + 1)
    ensures forall j :: k < j < |run| && j - k <= cfg.maxAttempts && (forall i :: k < i <= j ==> !run[i].passwordOk) ==>
              AnswerAt(cfg, x, run, j) == Failed(j - k == cfg.maxAttempts)
  {
    forall j | k < j < |run| && j - k <= cfg.maxAttempts && (forall i :: k < i <= j ==> !run[i].passwordOk)
      ensures AnswerAt(cfg, x, run, j) == Failed(j - k == cfg.maxAttempts) {
      LocksAtLimit(cfg, x, run, k + 1, j - k);
    }
  }

  /** From such a login on, failures in a row are counted one by one, and the one that fills the count
      locks the account. */
  lemma {:induction false} LocksAtLimit(cfg: Config, x: Adapter, run: seq<Attempt>, first: nat, n: nat)
    requires first + n <= |run| && 0 < n <= cfg.maxAttempts && StartsAfresh(cfg, x, run, first)
    requires forall i :: first <= i < first + n ==> !run[i].passwordOk
    ensures AnswerAt(cfg, x, run, first + n - 1) == Failed(n == cfg.maxAttempts)
    ensures AccountAt(cfg, x, run, first + n)
         == Account(n, if n == cfg.maxAttempts then Some(run[first + n - 1].now + cfg.lockoutDurationMs) else None)
    decreases n
  {
    if n > 1 {
      LocksAtLimit(cfg, x, run, first, n - 1);
    }
  }

  /** A login that locks the account blocks every later one, with the right or a wrong password, until
      the lockout duration has passed; the first one then finds the account without failures. */
  lemma {:induction false} LockHolds(cfg: Config, x: Adapter, run: seq<Attempt>, i: nat, k: nat)
    requires i < k < |run| && AnswerAt(cfg, x, run, i) == Failed(true)
    requires forall m :: i < m < k ==> run[m].now < run[i].now + cfg.lockoutDurationMs
    ensures var until := run[i].now + cfg.lockoutDurationMs;
            && (run[k].now < until ==> AnswerAt(cfg, x, run, k) == Blocked(until))
            && (run[k].now >= until ==> !AnswerAt(cfg, x, run, k).Blocked? && StartsAfresh(cfg, x, run, k))
            && AccountAt(cfg, x, run, k).lockedUntil == Some(until)
    decreases k
  {
    if k > i + 1 {
      LockHolds(cfg, x, run, i, k - 1);
    }
  }

  // ---- The rate of failures ----

  predicate Monotone(run: seq<Attempt>) {
    forall i, j :: 0 <= i < j < |run| ==> run[i].now <= run[j].now
  }

  predicate Within(cfg: Config, l: Attempt, start: nat) {
    start <= l.now < start + cfg.lockoutDurationMs
  }

  /** The failures recorded among the first k logins in the interval from start. */
  function Failures(cfg: Config, run: seq<Attempt>, start: nat, k: nat): nat
    requires k <= |run|
  {
    if k == 0 then 0
    else Failures(cfg, run, start, k - 1)
         + if AnswerAt(cfg, Memory, run, k - 1).Failed? && Within(cfg, run[k - 1], start) then 1 else 0
  }

  predicate NoSuccessWithin(cfg: Config, run: seq<Attempt>, start: nat) {
    forall i :: 0 <= i < |run| && Within(cfg, run[i], start) ==> AnswerAt(cfg, Memory, run, i) != Passed
  }

  /** Before the interval ends, either it saw no failure yet behind an old lock, or its failures are
      all in the counter, or they have brought a lock that outlasts it. */
  predicate CountsFailures(cfg: Config, a: Account, failures: nat, start: nat) {
    match a.lockedUntil
    case None => failures <= a.attempts < cfg.maxAttempts
    case Some(until) =>
      if until >= start + cfg.lockoutDurationMs then failures <= cfg.maxAttempts else failures == 0
  }

  lemma {:induction false} FailuresCounted(cfg: Config, run: seq<Attempt>, start: nat, k: nat)
    requires k <= |run| && Monotone(run) && NoSuccessWithin(cfg, run, start)
    ensures Failures(cfg, run, start, k) <= cfg.maxAttempts
    ensures k == 0 || run[k - 1].now < start + cfg.lockoutDurationMs ==>
              CountsFailures(cfg, AccountAt(cfg, Memory, run, k), Failures(cfg, run, start, k), start)
    ensures k > 0 && run[k - 1].now < start ==> Failures(cfg, run, start, k) == 0
  {
    if k > 0 {
      FailuresCounted(cfg, run, start, k - 1);
      if k > 1 {
        assert run[k - 2].now <= run[k - 1].now;
      }
    }
  }

  /** In any interval of the lockout duration in which no login for the account succeeds, at most
      maxAttempts failures are recorded, however many logins are tried. */
  lemma FailureRateBound(cfg: Config, run: seq<Attempt>, start: nat)
    requires Monotone(run) && NoSuccessWithin(cfg, run, start)
    ensures Failures(cfg, run, start, |run|) <= cfg.maxAttempts
  {
    FailuresCounted(cfg, run, start, |run|);
  }
}
