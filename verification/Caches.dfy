/**
 The in-memory cache. Entries expire lazily: an expired entry stays in the map until somebody
 looks at its key.
 */
module Caches {
  import opened Base
  import Globs

  /** expiresAt is None for an entry without expiry. */
  datatype Entry<V> = Entry(value: V, expiresAt: Option<int>)

  type Store<V> = map<string, Entry<V>>

  /** How a number is stored, and what + makes of a stored value and a number. */
  datatype Numbers<!V> = Numbers(inject: int -> V, plus: (V, int) -> V)

  predicate IsExpired<V>(e: Entry<V>, now: int) {
    e.expiresAt.Some? && e.expiresAt.value <= now
  }

  predicate IsLive<V>(s: Store<V>, key: string, now: int) {
    key in s && !IsExpired(s[key], now)
  }

  /** What get and has leave behind: the key is dropped when its entry has expired. */
  function Touched<V>(s: Store<V>, key: string, now: int): Store<V> {
    if key in s && IsExpired(s[key], now) then s - {key} else s
  }

  function Looked<V>(s: Store<V>, key: string, now: int): Option<V> {
    if IsLive(s, key, now) then Some(s[key].value) else None
  }

  function AfterSet<V>(s: Store<V>, key: string, value: V, ttlMs: Option<int>, now: int): Store<V> {
    s[key := Entry(value, if ttlMs.Some? then Some(now + ttlMs.value) else None)]
  }

  /** Incrementing an expired entry keeps its expiry, and with it an entry that is already dead. */
  function AfterIncr<V>(num: Numbers<V>, s: Store<V>, key: string, delta: int, now: int): Store<V> {
    if IsLive(s, key, now) then s[key := s[key].(value := num.plus(s[key].value, delta))]
    else s[key := Entry(num.inject(delta), if key in s then s[key].expiresAt else None)]
  }

  function AfterDelPattern<V>(s: Store<V>, pattern: string): Store<V> {
    map k | k in s && !Globs.LineGlob(pattern, k) :: s[k]
  }

  class InMemoryCache<V(==)> {
    const num: Numbers<V>
    var store: Store<V>

    constructor (num: Numbers<V>)
      ensures this.num == num && store == map[]
    {
      this.num := num;
      store := map[];
    }

    method Get(key: string, now: int) returns (r: Option<V>)
      modifies this
      ensures r == Looked(old(store), key, now) && store == Touched(old(store), key, now)
    {
      if key !in store || IsExpired(store[key], now) {
        if key in store {
          store := store - {key};
        }
        return None;
      }
      return Some(store[key].value);
    }

    method Set(key: string, value: V, ttlMs: Option<int>, now: int)
      modifies this
      ensures store == AfterSet(old(store), key, value, ttlMs, now)
    {
      var expiresAt := if ttlMs.Some? then Some(now + ttlMs.value) else None;
      store := store[key := Entry(value, expiresAt)];
    }

    method Del(key: string) returns (r: bool)
      modifies this
      ensures r == (key in old(store)) && store == old(store) - {key}
    {
      r := key in store;
      store := store - {key};
    }

    method Has(key: string, now: int) returns (r: bool)
      modifies this
      ensures r == IsLive(old(store), key, now) && store == Touched(old(store), key, now)
    {
      if key !in store || IsExpired(store[key], now) {
        if key in store {
          store := store - {key};
        }
        return false;
      }
      return true;
    }

    method Incr(key: string, delta: int, now: int) returns (r: V)
      modifies this
      ensures store == AfterIncr(num, old(store), key, delta, now) && r == store[key].value
    {
      if key !in store || IsExpired(store[key], now) {
        store := store[key := Entry(num.inject(delta), if key in store then store[key].expiresAt else None)];
        return num.inject(delta);
      }
      var newVal := num.plus(store[key].value, delta);
      store := store[key := store[key].(value := newVal)];
      return newVal;
    }

    /** Deletes exactly the stored keys that the glob matches, and returns their number. */
    method DelPattern(pattern: string) returns (count: nat)
      modifies this
      ensures store == AfterDelPattern(old(store), pattern)
      ensures count == |set k | k in old(store) && Globs.LineGlob(pattern, k)|
    {
      hide Globs.LineGlob, Globs.RegexTest, Globs.GlobToRegex;
      var regexStr := Globs.GlobToRegex(pattern);
      count := 0;
      var todo := store.Keys;
      ghost var gone: set<string> := {};
      while todo != {}
        invariant todo <= store.Keys && gone <= old(store).Keys - todo && store == old(store) - gone
        invariant forall k :: k in old(store) && k !in todo ==> (k in gone <==> Globs.LineGlob(pattern, k))
        invariant count == |gone|
        decreases todo
      {
        var key :| key in todo;
        Globs.RewritePreservesMeaning(pattern, key);
        if Globs.RegexTest(regexStr, key) {
          store := store - {key};
          count := count + 1;
          gone := gone + {key};
        }
        todo := todo - {key};
      }
      assert gone == set k | k in old(store) && Globs.LineGlob(pattern, k);
    }

    method Close()
      modifies this
      ensures store == map[]
    {
      store := map[];
    }
  }

  // ---- Lazy expiry against eager expiry ----

  datatype Op<V> =
    | Get(key: string)
    | Has(key: string)
    | Set(key: string, value: V, ttlMs: Option<int>)
    | Incr(key: string, delta: int)
    | Del(key: string)
    | DelPattern(pattern: string)
    | Close

  datatype Request<V> = Request(now: int, op: Op<V>)

  function LazyStep<V>(num: Numbers<V>, s: Store<V>, r: Request<V>): Store<V> {
    match r.op
    case Get(key) => Touched(s, key, r.now)
    case Has(key) => Touched(s, key, r.now)
    case Set(key, value, ttlMs) => AfterSet(s, key, value, ttlMs, r.now)
    case Incr(key, delta) => AfterIncr(num, s, key, delta, r.now)
    case Del(key) => s - {key}
    case DelPattern(pattern) => AfterDelPattern(s, pattern)
    case Close => map[]
  }

  /** The entries that have not expired. */
  function Live<V>(s: Store<V>, now: int): Store<V> {
    map k | k in s && (s[k].expiresAt.None? || now < s[k].expiresAt.value) :: s[k]
  }

  /** A timed map that drops entries the moment they expire. */
  function EagerStep<V>(num: Numbers<V>, s: Store<V>, r: Request<V>): Store<V> {
    var live := Live(s, r.now);
    match r.op
    case Set(key, value, None) => live[key := Entry(value, None)]
    case Set(key, value, Some(ttl)) => live[key := Entry(value, Some(r.now + ttl))]
    case Incr(key, delta) =>
      live[key := if key in live then live[key].(value := num.plus(live[key].value, delta))
                  else Entry(num.inject(delta), None)]
    case Del(key) => live - {key}
    case DelPattern(pattern) => live - set k | k in live && Globs.LineGlob(pattern, k)
    case Close => map[]
    case _ => live
  }

  /** The answer of get, has and incr; the answers of the other operations are not compared. */
  function Answer<V>(num: Numbers<V>, s: Store<V>, r: Request<V>): Option<V> {
    match r.op
    case Get(key) => Looked(s, key, r.now)
    case Has(key) => Looked(s, key, r.now)
    case Incr(key, delta) => Some(AfterIncr(num, s, key, delta, r.now)[key].value)
    case _ => None
  }

  /** The branch of incr that meets an entry which is present but expired. */
  predicate IncrOfExpired<V>(s: Store<V>, r: Request<V>) {
    r.op.Incr? && r.op.key in s && IsExpired(s[r.op.key], r.now)
  }

  function LazyAt<V>(num: Numbers<V>, run: seq<Request<V>>, k: nat): Store<V>
    requires k <= |run|
  {
    if k == 0 then map[] else LazyStep(num, LazyAt(num, run, k - 1), run[k - 1])
  }

  function EagerAt<V>(num: Numbers<V>, run: seq<Request<V>>, k: nat): Store<V>
    requires k <= |run|
  {
    if k == 0 then map[] else EagerStep(num, EagerAt(num, run, k - 1), run[k - 1])
  }

  /** The clock never goes back, and no incr meets an expired entry. */
  predicate ValidRun<V>(num: Numbers<V>, run: seq<Request<V>>, k: nat)
    requires k <= |run|
  {
    k == 0 ||
    (&& ValidRun(num, run, k - 1)
     && (k >= 2 ==> run[k - 2].now <= run[k - 1].now)
     && !IncrOfExpired(LazyAt(num, run, k - 1), run[k - 1]))
  }

  lemma StepsAgree<V>(num: Numbers<V>, s: Store<V>, e: Store<V>, r: Request<V>)
    requires Live(s, r.now) == Live(e, r.now) && !IncrOfExpired(s, r)
    ensures Answer(num, s, r) == Answer(num, Live(e, r.now), r)
    ensures forall t :: t >= r.now ==> Live(LazyStep(num, s, r), t) == Live(EagerStep(num, e, r), t)
  {
    forall t | t >= r.now ensures Live(LazyStep(num, s, r), t) == Live(EagerStep(num, e, r), t) {
      StepsAgreeAt(num, s, e, r, t);
    }
    LookedAgree(s, e, r.now);
  }

  lemma LookedAgree<V>(s: Store<V>, e: Store<V>, now: int)
    requires Live(s, now) == Live(e, now)
    ensures forall key :: Looked(s, key, now) == Looked(Live(e, now), key, now)
    ensures forall key :: IsLive(s, key, now) ==> key in Live(e, now) && s[key] == Live(e, now)[key]
    ensures forall key :: IsLive(s, key, now) <==> key in Live(e, now)
  {
    forall key ensures IsLive(s, key, now) <==> key in Live(e, now) {
      assert IsLive(s, key, now) <==> key in Live(s, now);
    }
    forall key | IsLive(s, key, now) ensures s[key] == Live(e, now)[key] {
      assert Live(s, now)[key] == s[key];
    }
  }

  lemma StepsAgreeAt<V>(num: Numbers<V>, s: Store<V>, e: Store<V>, r: Request<V>, t: int)
    requires Live(s, r.now) == Live(e, r.now) && !IncrOfExpired(s, r) && t >= r.now
    ensures Live(LazyStep(num, s, r), t) == Live(EagerStep(num, e, r), t)
  {
    LookedAgree(s, e, r.now);
    var (s', e') := (LazyStep(num, s, r), EagerStep(num, e, r));
    forall key ensures IsLive(s', key, t) <==> IsLive(e', key, t) {
      assert IsLive(s, key, r.now) <==> key in Live(e, r.now);
    }
    forall key | IsLive(s', key, t) && IsLive(e', key, t) ensures s'[key] == e'[key] {
      assert IsLive(s, key, r.now) <==> key in Live(e, r.now);
    }
    assert forall key :: key in Live(s', t) <==> IsLive(s', key, t);
    assert forall key :: key in Live(e', t) <==> IsLive(e', key, t);
  }

  lemma {:induction false} RunsAgree<V>(num: Numbers<V>, run: seq<Request<V>>, k: nat, t: int)
    requires k <= |run| && ValidRun(num, run, k) && (k > 0 ==> run[k - 1].now <= t)
    ensures Live(LazyAt(num, run, k), t) == Live(EagerAt(num, run, k), t)
  {
    if k > 0 {
      RunsAgree(num, run, k - 1, run[k - 1].now);
      StepsAgreeAt(num, LazyAt(num, run, k - 1), EagerAt(num, run, k - 1), run[k - 1], t);
    }
  }

  /** Under a monotone clock every get, has and incr answers as the eagerly expiring map does. */
  lemma LazyAnswersAreEager<V>(num: Numbers<V>, run: seq<Request<V>>, k: nat)
    requires k < |run| && ValidRun(num, run, k + 1)
    ensures Answer(num, LazyAt(num, run, k), run[k]) == Answer(num, Live(EagerAt(num, run, k), run[k].now), run[k])
  {
    RunsAgree(num, run, k, run[k].now);
    StepsAgree(num, LazyAt(num, run, k), EagerAt(num, run, k), run[k]);
  }

  predicate Monotone<V>(run: seq<Request<V>>) {
    forall i, j :: 0 <= i < j < |run| ==> run[i].now <= run[j].now
  }

  /** Right after the first k requests, get and has of any key answer alike. */
  ghost predicate LooksAlike<V>(num: Numbers<V>, run: seq<Request<V>>, k: nat)
    requires 0 < k <= |run|
  {
    var now := run[k - 1].now;
    forall key :: Looked(LazyAt(num, run, k), key, now) == Looked(EagerAt(num, run, k), key, now)
  }

  /** Over every run with a monotone clock, the two look alike after each request if and only if no incr
      met an entry present but expired. */
  lemma {:induction false} AlikeExactly<V>(num: Numbers<V>, run: seq<Request<V>>, k: nat)
    requires k <= |run| && Monotone(run)
    ensures ValidRun(num, run, k) <==> forall m :: 0 < m <= k ==> LooksAlike(num, run, m)
  {
    hide LooksAlike;
    if k > 0 {
      AlikeExactly(num, run, k - 1);
      if ValidRun(num, run, k - 1) {
        AlikeStep(num, run, k);
      }
    }
  }

  lemma AlikeStep<V>(num: Numbers<V>, run: seq<Request<V>>, k: nat)
    requires 0 < k <= |run| && Monotone(run) && ValidRun(num, run, k - 1)
    ensures ValidRun(num, run, k) <==> LooksAlike(num, run, k)
  {
    var (r, s, e) := (run[k - 1], LazyAt(num, run, k - 1), EagerAt(num, run, k - 1));
    if IncrOfExpired(s, r) {
      RunsAgree(num, run, k - 1, r.now);
      LookedAgree(s, e, r.now);
      IncrIsLostExactlyOnExpired(num, s, r);
      assert !IsLive(s, r.op.key, r.now);
      assert Looked(LazyStep(num, s, r), r.op.key, r.now) == None;
      assert Looked(EagerStep(num, e, r), r.op.key, r.now).Some?;
      assert Looked(LazyAt(num, run, k), r.op.key, r.now) != Looked(EagerAt(num, run, k), r.op.key, r.now);
      assert !LooksAlike(num, run, k);
    } else {
      assert ValidRun(num, run, k);
      RunsAgree(num, run, k, r.now);
      var (s', e') := (LazyAt(num, run, k), EagerAt(num, run, k));
      LookedAgree(s', e', r.now);
      LookedAgree(e', e', r.now);
    }
  }

  /** The excluded branch is exactly where incr loses its write: a get at the same moment finds the
      incremented value unless the entry was present and expired. */
  lemma IncrIsLostExactlyOnExpired<V>(num: Numbers<V>, s: Store<V>, r: Request<V>)
    requires r.op.Incr?
    ensures Looked(LazyStep(num, s, r), r.op.key, r.now) == None <==> IncrOfExpired(s, r)
    ensures Looked(EagerStep(num, s, r), r.op.key, r.now).Some?
  {
  }

  /** A get or has leaves every entry as it was, and drops its own key exactly if the entry is over. */
  lemma LookingDropsTheDead<V>(num: Numbers<V>, s: Store<V>, r: Request<V>, key: string, k: string)
    requires r.op == Get(key) || r.op == Has(key)
    ensures var s' := LazyStep(num, s, r);
            && (k in s' <==> k in s && !(k == key && s[k].expiresAt.Some? && s[k].expiresAt.value <= r.now))
            && (k in s' ==> s'[k] == s[k])
  {
  }

  // ---- How long a value is found ----

  /** The operation neither writes nor deletes the key. */
  predicate LeavesKey<V>(op: Op<V>, key: string) {
    match op
    case Get(_) => true
    case Has(_) => true
    case Set(k, _, _) => k != key
    case Incr(k, _) => k != key
    case Del(k) => k != key
    case DelPattern(pattern) => !Globs.LineGlob(pattern, key)
    case Close => false
  }

  /** The entry is there as written, or was dropped after its time. */
  ghost predicate AsWritten<V>(s: Store<V>, key: string, value: V, until: Option<int>, now: int) {
    if key in s then s[key] == Entry(value, until) else until.Some? && until.value <= now
  }

  lemma WrittenStep<V>(num: Numbers<V>, s: Store<V>, r: Request<V>, key: string, value: V, until: Option<int>, now: int)
    requires AsWritten(s, key, value, until, now) && now <= r.now && LeavesKey(r.op, key)
    ensures AsWritten(LazyStep(num, s, r), key, value, until, r.now)
  {
    hide Globs.LineGlob;
  }

  lemma {:induction false} StaysAsWritten<V>(num: Numbers<V>, run: seq<Request<V>>, i: nat, k: nat, key: string, value: V, ttl: Option<int>)
    requires i < k <= |run| && Monotone(run) && run[i].op == Set(key, value, ttl)
    requires forall m :: i < m < k ==> LeavesKey(run[m].op, key)
    ensures AsWritten(LazyAt(num, run, k), key, value, if ttl.Some? then Some(run[i].now + ttl.value) else None, run[k - 1].now)
    decreases k
  {
    hide LazyStep, LeavesKey;
    if k == i + 1 {
      SetWrites(num, LazyAt(num, run, i), run[i], key, value, ttl);
    } else {
      StaysAsWritten(num, run, i, k - 1, key, value, ttl);
      WrittenStep(num, LazyAt(num, run, k - 1), run[k - 1], key, value,
                  if ttl.Some? then Some(run[i].now + ttl.value) else None, run[k - 2].now);
    }
  }

  lemma SetWrites<V>(num: Numbers<V>, s: Store<V>, r: Request<V>, key: string, value: V, ttl: Option<int>)
    requires r.op == Set(key, value, ttl)
    ensures LazyStep(num, s, r) == s[key := Entry(value, if ttl.Some? then Some(r.now + ttl.value) else None)]
  {
  }

  /** In every run with a monotone clock a get or has of a key finds the value last set, if nothing wrote
      or deleted the key since, exactly until its time to live is over. */
  lemma FoundExactlyInTime<V>(num: Numbers<V>, run: seq<Request<V>>, i: nat, k: nat, key: string, value: V, ttl: Option<int>)
    requires i < k < |run| && Monotone(run) && run[i].op == Set(key, value, ttl)
    requires forall m :: i < m < k ==> LeavesKey(run[m].op, key)
    requires run[k].op == Get(key) || run[k].op == Has(key)
    ensures var inTime := ttl.None? || run[k].now < run[i].now + ttl.value;
            && Answer(num, LazyAt(num, run, k), run[k]) == (if inTime then Some(value) else None)
            && (IsLive(LazyAt(num, run, k), key, run[k].now) <==> inTime)
  {
    StaysAsWritten(num, run, i, k, key, value, ttl);
    assert run[k - 1].now <= run[k].now;
  }
}
