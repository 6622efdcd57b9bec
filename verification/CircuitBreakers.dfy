/**
 The circuit breaker: a state machine fed by calls that begin and complete in any interleaving.
 A completion is counted in the state it finds, even when its call began in an earlier episode.
 */
module CircuitBreakers {
  import opened Base

  datatype CircuitState = Closed | Open | HalfOpen

  type Positive = n: nat | n > 0 witness 1

  /** The configuration schema admits positive numbers only. */
  datatype Options = Options(failureThreshold: Positive, resetTimeoutMs: Positive, halfOpenSuccessThreshold: Positive)

  datatype Breaker = Breaker(state: CircuitState, failures: nat, successes: nat, lastFailureTime: nat, halfOpenInFlight: int)

  const INITIAL := Breaker(Closed, 0, 0, 0, 0)

  // ---- What each operation does to the counters ----

  /** OPEN becomes HALF_OPEN once the reset timeout has passed since the latest failure. */
  function Probed(o: Options, b: Breaker, now: nat): Breaker {
    if b.state == Open && now - b.lastFailureTime >= o.resetTimeoutMs
    then b.(state := HalfOpen, successes := 0, halfOpenInFlight := 0) else b
  }

  predicate Admits(o: Options, b: Breaker, now: nat) {
    var p := Probed(o, b, now);
    p.state == Closed || (p.state == HalfOpen && p.halfOpenInFlight < o.halfOpenSuccessThreshold)
  }

  function AfterBegin(o: Options, b: Breaker, now: nat): Breaker {
    var p := Probed(o, b, now);
    if p.state == HalfOpen && Admits(o, b, now) then p.(halfOpenInFlight := p.halfOpenInFlight + 1) else p
  }

  function AfterSuccess(o: Options, b: Breaker): Breaker {
    if b.state != HalfOpen then b.(failures := 0)
    else if b.successes + 1 >= o.halfOpenSuccessThreshold
    then b.(state := Closed, failures := 0, successes := 0, halfOpenInFlight := b.halfOpenInFlight - 1)
    else b.(successes := b.successes + 1, halfOpenInFlight := b.halfOpenInFlight - 1)
  }

  function AfterFailure(o: Options, b: Breaker, now: nat): Breaker {
    var f := b.(failures := b.failures + 1, lastFailureTime := now);
    if b.state == HalfOpen then f.(state := Open, successes := 0, halfOpenInFlight := b.halfOpenInFlight - 1)
    else if f.failures >= o.failureThreshold then f.(state := Open)
    else f
  }

  function AfterReset(b: Breaker): Breaker {
    b.(state := Closed, failures := 0, successes := 0, halfOpenInFlight := 0)
  }

  class CircuitBreaker {
    const options: Options
    var state: CircuitState
    var failures: nat
    var successes: nat
    var lastFailureTime: nat
    var halfOpenInFlight: int

    constructor (options: Options)
      ensures this.options == options && View() == INITIAL
    {
      this.options := options;
      state, failures, successes, lastFailureTime, halfOpenInFlight := Closed, 0, 0, 0, 0;
    }

    function View(): Breaker
      reads this
    {
      Breaker(state, failures, successes, lastFailureTime, halfOpenInFlight)
    }

    method ProbeIfDue(now: nat)
      modifies this
      ensures View() == Probed(options, old(View()), now)
    {
      if state == Open {
        var elapsed := now - lastFailureTime;
        if elapsed >= options.resetTimeoutMs {
          successes := 0;
          halfOpenInFlight := 0;
          state := HalfOpen;
        }
      }
    }

    /** The state getter. */
    method GetState(now: nat) returns (r: CircuitState)
      modifies this
      ensures View() == Probed(options, old(View()), now) && r == state
    {
      ProbeIfDue(now);
      r := state;
    }

    /** execute, up to the await of the wrapped call. */
    method Begin(now: nat) returns (admitted: bool)
      modifies this
      ensures View() == AfterBegin(options, old(View()), now)
      ensures admitted == Admits(options, old(View()), now)
    {
      ProbeIfDue(now);
      if state == Open {
        return false;
      }
      if state == HalfOpen {
        if halfOpenInFlight >= options.halfOpenSuccessThreshold {
          return false;
        }
        halfOpenInFlight := halfOpenInFlight + 1;
      }
      return true;
    }

    /** execute, after the wrapped call resolved. */
    method RecordSuccess()
      modifies this
      ensures View() == AfterSuccess(options, old(View()))
    {
      if state == HalfOpen {
        successes := successes + 1;
        halfOpenInFlight := halfOpenInFlight - 1;
        if successes >= options.halfOpenSuccessThreshold {
          failures := 0;
          successes := 0;
          state := Closed;
        }
      } else {
        failures := 0;
      }
    }

    /** execute, after the wrapped call rejected. */
    method RecordFailure(now: nat)
      modifies this
      ensures View() == AfterFailure(options, old(View()), now)
    {
      failures := failures + 1;
      lastFailureTime := now;
      if state == HalfOpen {
        halfOpenInFlight := halfOpenInFlight - 1;
        successes := 0;
        state := Open;
      } else if failures >= options.failureThreshold {
        state := Open;
      }
    }

    method Reset()
      modifies this
      ensures View() == AfterReset(old(View()))
    {
      failures := 0;
      successes := 0;
      halfOpenInFlight := 0;
      state := Closed;
    }
  }

  // ---- Runs ----

  /** An outstanding call, marked with the episode in which it was admitted. */
  datatype Call = Call(id: nat, episode: nat)

  datatype Event =
    | Begin(now: nat)
    | Succeed(call: Call)
    | Fail(call: Call, now: nat)
    | Read(now: nat)
    | Reset

  /** An episode is a stay in one state; admitted and completed count the calls admitted and the
      completions of any call during the present episode. */
  datatype Machine = Machine(
    b: Breaker, episode: nat, admitted: nat, completed: nat, live: set<Call>, nextId: nat)

  function NextBreaker(o: Options, b: Breaker, e: Event): Breaker {
    match e
    case Begin(now) => AfterBegin(o, b, now)
    case Succeed(_) => AfterSuccess(o, b)
    case Fail(_, now) => AfterFailure(o, b, now)
    case Read(now) => Probed(o, b, now)
    case Reset => AfterReset(b)
  }

  predicate Enabled(m: Machine, e: Event) {
    (e.Succeed? || e.Fail?) ==> e.call in m.live
  }

  predicate AdmitsCall(o: Options, m: Machine, e: Event) {
    e.Begin? && Admits(o, m.b, e.now)
  }

  function Next(o: Options, m: Machine, e: Event): Machine {
    var b := NextBreaker(o, m.b, e);
    var changed := b.state != m.b.state;
    var episode := if changed then m.episode + 1 else m.episode;
    var (began, ended) := (if AdmitsCall(o, m, e) then 1 else 0, if e.Succeed? || e.Fail? then 1 else 0);
    Machine(b, episode,
            if changed then began else m.admitted + began,
            if changed then 0 else m.completed + ended,
            (if ended == 1 then m.live - {e.call} else m.live)
            + (if began == 1 then {Call(m.nextId, episode)} else {}),
            m.nextId + began)
  }

  function Run(o: Options, es: seq<Event>): Machine {
    if es == [] then Machine(INITIAL, 0, 0, 0, {}, 0) else Next(o, Run(o, es[..|es| - 1]), es[|es| - 1])
  }

  /** Only outstanding calls complete. */
  predicate ValidRun(o: Options, es: seq<Event>) {
    es == [] || (ValidRun(o, es[..|es| - 1]) && Enabled(Run(o, es[..|es| - 1]), es[|es| - 1]))
  }

  // ---- Conservation ----

  /** The outstanding calls admitted in the present episode. */
  function Own(m: Machine): set<Call> {
    set c | c in m.live && c.episode == m.episode
  }

  ghost predicate Inv(o: Options, m: Machine) {
    && (forall c :: c in m.live ==> c.id < m.nextId && c.episode <= m.episode)
    && (m.b.state == Closed ==> m.b.failures < o.failureThreshold)
    && (m.b.state != HalfOpen ==> m.b.successes == 0)
    && (m.b.state == HalfOpen ==>
          && m.b.halfOpenInFlight + m.b.successes == m.admitted
          && m.b.successes == m.completed < o.halfOpenSuccessThreshold
          && m.b.halfOpenInFlight <= o.halfOpenSuccessThreshold
          && m.b.halfOpenInFlight <= |Own(m)|)
  }

  /** Apart from an admission and a completion, the calls of an ongoing episode stay. */
  lemma OwnStep(o: Options, m: Machine, e: Event)
    requires Inv(o, m) && Enabled(m, e) && Next(o, m, e).episode == m.episode
    ensures |Own(Next(o, m, e))| >= |Own(m)| + (if AdmitsCall(o, m, e) then 1 else 0) - (if e.Succeed? || e.Fail? then 1 else 0)
  {
    var m' := Next(o, m, e);
    if e.Succeed? || e.Fail? {
      assert Own(m') == Own(m) - {e.call};
    } else if AdmitsCall(o, m, e) {
      assert Own(m') == Own(m) + {Call(m.nextId, m.episode)};
    } else {
      assert Own(m') == Own(m);
    }
  }

  lemma InvStep(o: Options, m: Machine, e: Event)
    requires Inv(o, m) && Enabled(m, e)
    ensures Inv(o, Next(o, m, e))
  {
    var m' := Next(o, m, e);
    if m'.episode == m.episode {
      OwnStep(o, m, e);
    } else if AdmitsCall(o, m, e) {
      assert Own(m') == {Call(m.nextId, m'.episode)};
    }
  }

  lemma {:induction false} InvRun(o: Options, es: seq<Event>)
    requires ValidRun(o, es)
    ensures Inv(o, Run(o, es))
  {
    if es != [] {
      InvRun(o, es[..|es| - 1]);
      InvStep(o, Run(o, es[..|es| - 1]), es[|es| - 1]);
    }
  }

  /** In HALF_OPEN the calls in flight and the successes together are the calls admitted in this
      episode, whatever stale completions were counted, and at most 2T - 1 are ever admitted. */
  lemma HalfOpenConservation(o: Options, es: seq<Event>)
    requires ValidRun(o, es) && Run(o, es).b.state == HalfOpen
    ensures var m := Run(o, es);
            && m.b.halfOpenInFlight + m.b.successes == m.admitted
            && m.admitted <= 2 * o.halfOpenSuccessThreshold - 1
            && m.b.successes == m.completed < o.halfOpenSuccessThreshold
  {
    InvRun(o, es);
  }

  /** A call rejected in HALF_OPEN finds at least T calls of this very episode outstanding. */
  lemma RejectionMeansOutstanding(o: Options, es: seq<Event>, now: nat)
    requires ValidRun(o, es) && Run(o, es).b.state == HalfOpen && !Admits(o, Run(o, es).b, now)
    ensures |Own(Run(o, es))| >= o.halfOpenSuccessThreshold
  {
    InvRun(o, es);
  }

  function Completions(es: seq<Event>): nat {
    if es == [] then 0
    else Completions(es[..|es| - 1]) + if es[|es| - 1].Succeed? || es[|es| - 1].Fail? then 1 else 0
  }

  lemma {:induction false} CompletionsInEpisode(o: Options, es: seq<Event>, more: seq<Event>)
    ensures Run(o, es + more).episode >= Run(o, es).episode
    ensures Run(o, es + more).episode == Run(o, es).episode ==>
              && Run(o, es + more).b.state == Run(o, es).b.state
              && Run(o, es + more).completed == Run(o, es).completed + Completions(more)
  {
    if more == [] {
      assert es + more == es;
    } else {
      CompletionsInEpisode(o, es, more[..|more| - 1]);
      assert (es + more)[..|es + more| - 1] == es + more[..|more| - 1];
    }
  }

  /** T completions, of whatever calls, always end a HALF_OPEN episode. */
  lemma CompletionsEndHalfOpen(o: Options, es: seq<Event>, more: seq<Event>)
    requires ValidRun(o, es + more) && Run(o, es).b.state == HalfOpen
    requires Completions(more) >= o.halfOpenSuccessThreshold
    ensures Run(o, es + more).episode > Run(o, es).episode
  {
    CompletionsInEpisode(o, es, more);
    InvRun(o, es + more);
  }

  // ---- History ----

  /** The failed completions since the last success or reset. */
  function FailureStreak(es: seq<Event>): nat {
    if es == [] then 0 else
      match es[|es| - 1]
      case Fail(_, _) => FailureStreak(es[..|es| - 1]) + 1
      case Succeed(_) => 0
      case Reset => 0
      case _ => FailureStreak(es[..|es| - 1])
  }

  function LatestFailure(es: seq<Event>): Option<nat> {
    if es == [] then None
    else if es[|es| - 1].Fail? then Some(es[|es| - 1].now)
    else LatestFailure(es[..|es| - 1])
  }

  /** The counters tell the history: a closed breaker's failure count is the failure streak, below the
      threshold, and an open breaker remembers the latest failure of all. */
  lemma {:induction false} CountersRefineHistory(o: Options, es: seq<Event>)
    requires ValidRun(o, es)
    ensures var b := Run(o, es).b;
            && (b.state == Closed ==> b.failures == FailureStreak(es) < o.failureThreshold)
            && (b.state != HalfOpen ==> b.successes == 0)
            && (b.state == HalfOpen ==> b.successes < o.halfOpenSuccessThreshold)
            && (LatestFailure(es).Some? ==> b.lastFailureTime == LatestFailure(es).value)
            && (b.state != Closed ==> LatestFailure(es).Some?)
  {
    InvRun(o, es);
    if es != [] {
      CountersRefineHistory(o, es[..|es| - 1]);
    }
  }

  /** No reset, and every clock reading is in the reset timeout that follows time f. */
  predicate WithinTimeout(o: Options, es: seq<Event>, f: nat) {
    forall e :: e in es ==> !e.Reset? && ((e.Begin? || e.Fail? || e.Read?) ==> f <= e.now < f + o.resetTimeoutMs)
  }

  /** Without a reset, OPEN lasts for the reset timeout after the latest failure and admits no call. */
  lemma {:induction false} OpenHolds(o: Options, es: seq<Event>, more: seq<Event>, f: nat)
    requires ValidRun(o, es + more) && ValidRun(o, es) && Run(o, es).b.state == Open
    requires LatestFailure(es) == Some(f) && WithinTimeout(o, more, f)
    ensures Run(o, es + more).b.state == Open && Run(o, es + more).nextId == Run(o, es).nextId
    ensures f <= Run(o, es + more).b.lastFailureTime < f + o.resetTimeoutMs
  {
    if more == [] {
      assert es + more == es;
      CountersRefineHistory(o, es);
    } else {
      assert (es + more)[..|es + more| - 1] == es + more[..|more| - 1];
      assert more[|more| - 1] in more;
      OpenHolds(o, es, more[..|more| - 1], f);
    }
  }

  /** Reading the state or beginning a call ends OPEN exactly when the timeout since the latest failure is over. */
  lemma OpenEndsOnTime(o: Options, es: seq<Event>, now: nat)
    requires ValidRun(o, es) && Run(o, es).b.state == Open
    ensures LatestFailure(es).Some?
    ensures Next(o, Run(o, es), Read(now)).b.state == HalfOpen <==> now - LatestFailure(es).value >= o.resetTimeoutMs
    ensures AdmitsCall(o, Run(o, es), Begin(now)) <==> now - LatestFailure(es).value >= o.resetTimeoutMs
  {
    CountersRefineHistory(o, es);
  }

  lemma NextRun(o: Options, es: seq<Event>, e: Event)
    ensures Run(o, es + [e]) == Next(o, Run(o, es), e)
  {
    assert (es + [e])[..|es + [e]| - 1] == es;
  }

  /** Every transition, from the history alone. A closed breaker opens exactly with the failure that makes
      the streak reach the threshold; an open one probes exactly when the timeout since the latest failure
      is over; a half-open one opens with any failure and closes exactly with the T-th completion of the
      episode, if none failed; reset always closes; and nothing else changes the state. */
  lemma TransitionsExactly(o: Options, es: seq<Event>, e: Event)
    requires ValidRun(o, es) && Enabled(Run(o, es), e)
    ensures var (m, state) := (Run(o, es), Run(o, es + [e]).b.state);
            match m.b.state
            case Closed => state == if e.Fail? && FailureStreak(es) + 1 >= o.failureThreshold then Open else Closed
            case Open =>
              state == if e.Reset? then Closed
                       else if (e.Begin? || e.Read?) && LatestFailure(es).Some?
                               && e.now - LatestFailure(es).value >= o.resetTimeoutMs then HalfOpen
                       else Open
            case HalfOpen =>
              state == if e.Fail? then Open
                       else if e.Reset? || (e.Succeed? && m.completed + 1 >= o.halfOpenSuccessThreshold) then Closed
                       else HalfOpen
  {
    InvRun(o, es);
    CountersRefineHistory(o, es);
    NextRun(o, es, e);
  }

  /** Which calls run: all in CLOSED, the first one after the timeout in OPEN, and in HALF_OPEN as long as
      fewer than T of the episode's calls have had no completion. */
  lemma AdmissionExactly(o: Options, es: seq<Event>, now: nat)
    requires ValidRun(o, es)
    ensures var m := Run(o, es);
            AdmitsCall(o, m, Begin(now)) <==>
              match m.b.state
              case Closed => true
              case Open => LatestFailure(es).Some? && now - LatestFailure(es).value >= o.resetTimeoutMs
              case HalfOpen => m.admitted - m.completed < o.halfOpenSuccessThreshold
  {
    InvRun(o, es);
    CountersRefineHistory(o, es);
  }
}
