/**
 The fixed-window rate limiter, in its module form and in the form inlined into the request handler.
 */
module RateLimits {
  import opened Base

  type Positive = n: nat | n > 0 witness 1

  const PRUNE_INTERVAL_MS: nat := 60_000

  datatype Config = Config(windowMs: Positive, maxRequests: Positive)

  datatype Entry = Entry(count: nat, resetAt: nat)

  type Store = map<string, Entry>

  datatype Verdict = Admitted(remaining: nat, resetAt: nat) | Limited

  // ---- One request against the windows, without pruning ----

  /** The window that counts a request: the open one of its key, or a new one. */
  function Charged(cfg: Config, s: Store, key: string, now: nat): Entry {
    if key in s && s[key].resetAt > now then Entry(s[key].count + 1, s[key].resetAt)
    else Entry(1, now + cfg.windowMs)
  }

  function VerdictOf(cfg: Config, e: Entry): Verdict {
    if e.count > cfg.maxRequests then Limited else Admitted(cfg.maxRequests - e.count, e.resetAt)
  }

  function OpenWindows(s: Store, now: nat): Store {
    map k | k in s && s[k].resetAt > now :: s[k]
  }

  // ---- The two limiters ----

  class ModuleLimiter {
    const config: Config
    var store: Store
    var lastPrune: nat

    constructor (config: Config, now: nat)
      ensures this.config == config && store == map[] && lastPrune == now
    {
      this.config := config;
      store := map[];
      lastPrune := now;
    }

    method Prune(now: nat)
      modifies this
      ensures (store, lastPrune) == ModulePruned(old(store), old(lastPrune), now)
    {
      if now - lastPrune < PRUNE_INTERVAL_MS {
        return;
      }
      lastPrune := now;
      var todo := store.Keys;
      while todo != {}
        invariant lastPrune == now && todo <= store.Keys <= old(store).Keys
        invariant forall k :: k in old(store) ==>
                    (k in store <==> k in todo || old(store)[k].resetAt > now) && (k in store ==> store[k] == old(store)[k])
        decreases todo
      {
        var key :| key in todo;
        if store[key].resetAt <= now {
          store := store - {key};
        }
        todo := todo - {key};
      }
      assert store == OpenWindows(old(store), now);
    }

    method CheckRateLimit(key: string, now: nat) returns (r: Verdict)
      modifies this
      ensures (store, lastPrune, r) == ModuleStep(config, old(store), old(lastPrune), key, now)
    {
      Prune(now);
      var entry: Entry;
      if key !in store || store[key].resetAt <= now {
        entry := Entry(0, now + config.windowMs);
      } else {
        entry := store[key];
      }
      entry := entry.(count := entry.count + 1);
      store := store[key := entry];
      if entry.count > config.maxRequests {
        return Limited;
      }
      return Admitted(config.maxRequests - entry.count, entry.resetAt);
    }
  }

  class InlineLimiter {
    const config: Config
    var rlStore: Store
    var lastPrune: nat

    constructor (config: Config)
      ensures this.config == config && rlStore == map[] && lastPrune == 0
    {
      this.config := config;
      rlStore := map[];
      lastPrune := 0;
    }

    /** The part of handleRequest between reading the clock and the verdict. */
    method HandleRequest(ip: string, now: nat) returns (r: Verdict)
      modifies this
      ensures (rlStore, lastPrune, r) == InlineStep(config, old(rlStore), old(lastPrune), ip, now)
    {
      if now - lastPrune > PRUNE_INTERVAL_MS {
        lastPrune := now;
        rlStore := map k | k in rlStore && rlStore[k].resetAt > now :: rlStore[k];
      }
      var rlEntry: Entry;
      if ip !in rlStore || rlStore[ip].resetAt <= now {
        rlEntry := Entry(1, now + config.windowMs);
      } else {
        rlEntry := rlStore[ip].(count := rlStore[ip].count + 1);
      }
      rlStore := rlStore[ip := rlEntry];
      if rlEntry.count > config.maxRequests {
        return Limited;
      }
      return Admitted(config.maxRequests - rlEntry.count, rlEntry.resetAt);
    }
  }

  /** At most once a minute, counted from the start of the process. */
  function ModulePruned(s: Store, lastPrune: nat, now: nat): (Store, nat) {
    if now - lastPrune < PRUNE_INTERVAL_MS then (s, lastPrune) else (OpenWindows(s, now), now)
  }

  function ModuleStep(cfg: Config, s: Store, lastPrune: nat, key: string, now: nat): (Store, nat, Verdict) {
    var (p, l) := ModulePruned(s, lastPrune, now);
    var e := Charged(cfg, p, key, now);
    (p[key := e], l, VerdictOf(cfg, e))
  }

  /** On a schedule of its own: later than a minute, and counted from the epoch. */
  function InlineStep(cfg: Config, s: Store, lastPrune: nat, key: string, now: nat): (Store, nat, Verdict) {
    var (p, l) := if now - lastPrune > PRUNE_INTERVAL_MS then (OpenWindows(s, now), now) else (s, lastPrune);
    var e := Charged(cfg, p, key, now);
    (p[key := e], l, VerdictOf(cfg, e))
  }

  /** When the two forms prune, and that a prune removes exactly the windows that have ended. */
  lemma PruneSchedules(cfg: Config, s: Store, lastPrune: nat, key: string, now: nat, k: string)
    requires k != key
    ensures var due := now - lastPrune >= 60_000;
            var (s', l', _) := ModuleStep(cfg, s, lastPrune, key, now);
            && l' == (if due then now else lastPrune)
            && (k in s' <==> k in s && (due ==> now < s[k].resetAt)) && (k in s' ==> s'[k] == s[k])
    ensures var due := now - lastPrune > 60_000;
            var (s', l', _) := InlineStep(cfg, s, lastPrune, key, now);
            && l' == (if due then now else lastPrune)
            && (k in s' <==> k in s && (due ==> now < s[k].resetAt)) && (k in s' ==> s'[k] == s[k])
  {
  }

  // ---- Runs ----

  datatype Request = Request(key: string, now: nat)

  predicate Monotone(run: seq<Request>) {
    forall i, j :: 0 <= i < j < |run| ==> run[i].now <= run[j].now
  }

  /** The store and the prune time before request k; booted is when the process started. */
  function ModuleAt(cfg: Config, booted: nat, run: seq<Request>, k: nat): (Store, nat)
    requires k <= |run|
  {
    if k == 0 then (map[], booted) else
      var (s, l) := ModuleAt(cfg, booted, run, k - 1);
      var step := ModuleStep(cfg, s, l, run[k - 1].key, run[k - 1].now);
      (step.0, step.1)
  }

  function InlineAt(cfg: Config, run: seq<Request>, k: nat): (Store, nat)
    requires k <= |run|
  {
    if k == 0 then (map[], 0) else
      var (s, l) := InlineAt(cfg, run, k - 1);
      var step := InlineStep(cfg, s, l, run[k - 1].key, run[k - 1].now);
      (step.0, step.1)
  }

  /** The same windows when nothing is ever pruned. */
  function UnprunedAt(cfg: Config, run: seq<Request>, k: nat): Store
    requires k <= |run|
  {
    if k == 0 then map[] else
      var s := UnprunedAt(cfg, run, k - 1);
      s[run[k - 1].key := Charged(cfg, s, run[k - 1].key, run[k - 1].now)]
  }

  function UnprunedVerdict(cfg: Config, run: seq<Request>, k: nat): Verdict
    requires k < |run|
  {
    VerdictOf(cfg, Charged(cfg, UnprunedAt(cfg, run, k), run[k].key, run[k].now))
  }

  predicate SameWindows(a: Store, b: Store, now: nat) {
    OpenWindows(a, now) == OpenWindows(b, now)
  }

  lemma OpenLookup(a: Store, b: Store, now: nat, k: string)
    requires SameWindows(a, b, now)
    ensures (k in a && a[k].resetAt > now) <==> (k in b && b[k].resetAt > now)
    ensures k in a && a[k].resetAt > now ==> a[k] == b[k]
  {
    assert k in OpenWindows(a, now) <==> k in OpenWindows(b, now);
    if k in OpenWindows(a, now) {
      assert OpenWindows(a, now)[k] == OpenWindows(b, now)[k];
    }
  }

  /** Charging a key keeps stores alike, at this moment and at every later one. */
  lemma ChargeKeepsAlike(cfg: Config, a: Store, b: Store, key: string, now: nat, later: nat)
    requires SameWindows(a, b, now) && now <= later
    ensures Charged(cfg, a, key, now) == Charged(cfg, b, key, now)
    ensures SameWindows(a[key := Charged(cfg, a, key, now)], b[key := Charged(cfg, b, key, now)], later)
  {
    OpenLookup(a, b, now, key);
    var e := Charged(cfg, a, key, now);
    var (a', b') := (a[key := e], b[key := e]);
    forall k ensures k in OpenWindows(a', later) <==> k in OpenWindows(b', later)
      ensures k in OpenWindows(a', later) ==> a'[k] == b'[k]
    {
      OpenLookup(a, b, now, k);
    }
  }

  lemma PruningIsInvisible(s: Store, now: nat, later: nat)
    requires now <= later
    ensures SameWindows(OpenWindows(s, now), s, later)
  {
  }

  lemma {:induction false} ModuleIsUnpruned(cfg: Config, booted: nat, run: seq<Request>, k: nat, later: nat)
    requires k <= |run| && Monotone(run) && (k > 0 ==> run[k - 1].now <= later)
    ensures SameWindows(ModuleAt(cfg, booted, run, k).0, UnprunedAt(cfg, run, k), later)
  {
    if k > 0 {
      var (s, l) := ModuleAt(cfg, booted, run, k - 1);
      var r := run[k - 1];
      if k > 1 {
        assert run[k - 2].now <= r.now;
      }
      ModuleIsUnpruned(cfg, booted, run, k - 1, r.now);
      PruningIsInvisible(s, r.now, r.now);
      ChargeKeepsAlike(cfg, ModulePruned(s, l, r.now).0, UnprunedAt(cfg, run, k - 1), r.key, r.now, later);
    }
  }

  lemma {:induction false} InlineIsUnpruned(cfg: Config, run: seq<Request>, k: nat, later: nat)
    requires k <= |run| && Monotone(run) && (k > 0 ==> run[k - 1].now <= later)
    ensures SameWindows(InlineAt(cfg, run, k).0, UnprunedAt(cfg, run, k), later)
  {
    if k > 0 {
      var (s, l) := InlineAt(cfg, run, k - 1);
      var r := run[k - 1];
      if k > 1 {
        assert run[k - 2].now <= r.now;
      }
      InlineIsUnpruned(cfg, run, k - 1, r.now);
      PruningIsInvisible(s, r.now, r.now);
      ChargeKeepsAlike(cfg, if r.now - l > PRUNE_INTERVAL_MS then OpenWindows(s, r.now) else s,
                       UnprunedAt(cfg, run, k - 1), r.key, r.now, later);
    }
  }

  function ModuleVerdict(cfg: Config, booted: nat, run: seq<Request>, k: nat): Verdict
    requires k < |run|
  {
    var (s, l) := ModuleAt(cfg, booted, run, k);
    ModuleStep(cfg, s, l, run[k].key, run[k].now).2
  }

  function InlineVerdict(cfg: Config, run: seq<Request>, k: nat): Verdict
    requires k < |run|
  {
    var (s, l) := InlineAt(cfg, run, k);
    InlineStep(cfg, s, l, run[k].key, run[k].now).2
  }

  /** Under a monotone clock the inlined limiter and the module give every request the same verdict,
      remaining count and reset time: when they prune cannot be observed. */
  lemma InlineRefinesModule(cfg: Config, booted: nat, run: seq<Request>, k: nat)
    requires k < |run| && Monotone(run)
    ensures InlineVerdict(cfg, run, k) == ModuleVerdict(cfg, booted, run, k) == UnprunedVerdict(cfg, run, k)
  {
    var r := run[k];
    var ((s, l), (t, m)) := (ModuleAt(cfg, booted, run, k), InlineAt(cfg, run, k));
    ModuleIsUnpruned(cfg, booted, run, k, r.now);
    InlineIsUnpruned(cfg, run, k, r.now);
    PruningIsInvisible(s, r.now, r.now);
    PruningIsInvisible(t, r.now, r.now);
    ChargeKeepsAlike(cfg, ModulePruned(s, l, r.now).0, UnprunedAt(cfg, run, k), r.key, r.now, r.now);
    ChargeKeepsAlike(cfg, if r.now - m > PRUNE_INTERVAL_MS then OpenWindows(t, r.now) else t,
                     UnprunedAt(cfg, run, k), r.key, r.now, r.now);
  }

  /** Request k finds no open window of its key, and opens one. */
  predicate OpensWindow(cfg: Config, run: seq<Request>, k: nat)
    requires k < |run|
  {
    var s := UnprunedAt(cfg, run, k);
    run[k].key !in s || s[run[k].key].resetAt <= run[k].now
  }

  /** The requests of key from first up to k. */
  function Count(run: seq<Request>, key: string, first: nat, k: nat): nat
    requires first <= k <= |run|
    decreases k
  {
    if k == first then 0 else Count(run, key, first, k - 1) + if run[k - 1].key == key then 1 else 0
  }

  lemma {:induction false} WindowFills(cfg: Config, run: seq<Request>, first: nat, k: nat)
    requires first < k <= |run| && OpensWindow(cfg, run, first)
    requires forall i :: first <= i < k ==> run[i].now < run[first].now + cfg.windowMs
    ensures var (key, s) := (run[first].key, UnprunedAt(cfg, run, k));
            key in s && s[key] == Entry(Count(run, key, first, k), run[first].now + cfg.windowMs)
  {
    if first < k - 1 {
      WindowFills(cfg, run, first, k - 1);
    }
  }

  /** Until the window that a request opens has ended, exactly the first maxRequests of its key's
      requests are admitted, whatever other keys do in between. */
  lemma WindowAdmitsExactly(cfg: Config, run: seq<Request>, first: nat, k: nat)
    requires first <= k < |run| && OpensWindow(cfg, run, first)
    requires forall i :: first <= i <= k ==> run[i].now < run[first].now + cfg.windowMs
    requires run[k].key == run[first].key
    ensures var n := Count(run, run[first].key, first, k);
            var end := run[first].now + cfg.windowMs;
            UnprunedVerdict(cfg, run, k) == if n < cfg.maxRequests then Admitted(cfg.maxRequests - n - 1, end) else Limited
  {
    if first < k {
      WindowFills(cfg, run, first, k);
    }
  }

  /** And the first request of the key at or after that end opens the next one. */
  lemma NextWindowOpens(cfg: Config, run: seq<Request>, first: nat, k: nat)
    requires first < k < |run| && OpensWindow(cfg, run, first) && run[k].key == run[first].key
    requires forall i :: first <= i < k ==> run[i].now < run[first].now + cfg.windowMs
    ensures OpensWindow(cfg, run, k) <==> run[first].now + cfg.windowMs <= run[k].now
  {
    WindowFills(cfg, run, first, k);
  }

  // ---- The rate of admissions ----

  /** The requests of the key admitted among the first k, in the window-long interval from start. */
  function Admissions(cfg: Config, run: seq<Request>, key: string, start: nat, k: nat): nat
    requires k <= |run|
  {
    if k == 0 then 0
    else Admissions(cfg, run, key, start, k - 1)
         + if run[k - 1].key == key && start <= run[k - 1].now < start + cfg.windowMs
              && UnprunedVerdict(cfg, run, k - 1).Admitted? then 1 else 0
  }

  /** An interval of window length meets at most two windows: one opened before it, one within. */
  predicate TwoWindows(cfg: Config, s: Store, key: string, start: nat, admitted: nat) {
    if key !in s then admitted == 0
    else if s[key].resetAt < start + cfg.windowMs then admitted <= Min(s[key].count, cfg.maxRequests)
    else admitted <= cfg.maxRequests + Min(s[key].count, cfg.maxRequests)
  }

  lemma {:induction false} AdmissionsBounded(cfg: Config, run: seq<Request>, key: string, start: nat, k: nat)
    requires k <= |run| && Monotone(run)
    ensures Admissions(cfg, run, key, start, k) <= 2 * cfg.maxRequests
    ensures k == 0 || run[k - 1].now < start + cfg.windowMs ==>
              TwoWindows(cfg, UnprunedAt(cfg, run, k), key, start, Admissions(cfg, run, key, start, k))
    ensures k > 0 && run[k - 1].now < start ==> Admissions(cfg, run, key, start, k) == 0
  {
    if k > 0 {
      AdmissionsBounded(cfg, run, key, start, k - 1);
      if k > 1 {
        assert run[k - 2].now <= run[k - 1].now;
      }
    }
  }

  /** At most twice maxRequests of a key's requests are admitted in any interval of window length. */
  lemma AdmissionRateBound(cfg: Config, run: seq<Request>, key: string, start: nat)
    requires Monotone(run)
    ensures Admissions(cfg, run, key, start, |run|) <= 2 * cfg.maxRequests
  {
    AdmissionsBounded(cfg, run, key, start, |run|);
  }
}
