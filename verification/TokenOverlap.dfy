/**
 The Postgres token repository with verify cut at the await between its select and its update. In the
 SQLite repository the two run without an await between them.
 */
module TokenOverlap {
  import opened Base
  import opened VerificationTokens

  type RequestId = nat

  /** Every other operation is one statement. */
  datatype Step = Other(op: Op) | Select(request: RequestId, raw: string, kind: Kind) | Mark(request: RequestId)

  datatype CutEvent = CutEvent(step: Step, now: int)

  /** holding names the token of every verify between its select and its update. */
  datatype CutWorld = CutWorld(rows: Rows, issued: set<string>, holding: map<RequestId, string>, clock: int)

  predicate CanHappen(w: CutWorld, e: CutEvent) {
    && w.clock <= e.now
    && match e.step
       case Other(op) => !op.Verify? && (Creates(op) ==> op.raw !in w.issued)
       case Select(r, _, _) => r !in w.holding
       case Mark(r) => r in w.holding
  }

  function After(w: CutWorld, e: CutEvent): CutWorld
    requires CanHappen(w, e)
  {
    match e.step
    case Other(op) =>
      w.(rows := PgNext(w.rows, Event(op, e.now)).0, issued := if Creates(op) then w.issued + {op.raw} else w.issued,
         clock := e.now)
    case Select(r, raw, kind) =>
      w.(holding := if PgSelected(w.rows, raw, kind, e.now).Some? then w.holding[r := raw] else w.holding, clock := e.now)
    case Mark(r) =>
      w.(rows := Marked(w.rows, w.holding[r], e.now), holding := w.holding - {r}, clock := e.now)
  }

  /** The world before event n, as long as the events before it could happen. */
  function CutWorldAt(es: seq<CutEvent>, n: nat): Option<CutWorld>
    requires n <= |es|
  {
    if n == 0 then Some(CutWorld(map[], {}, map[], if es == [] then 0 else es[0].now)) else
      var before := CutWorldAt(es, n - 1);
      if before.Some? && CanHappen(before.value, es[n - 1]) then Some(After(before.value, es[n - 1])) else None
  }

  predicate Arrives(es: seq<CutEvent>, n: nat, w: CutWorld) {
    n <= |es| && CutWorldAt(es, n) == Some(w)
  }

  /** Event n is a select that finds the token, so that its verify succeeds for the user. */
  predicate SucceedsAt(es: seq<CutEvent>, n: nat, request: RequestId, raw: string, g: Grant) {
    && n < |es| && es[n].step == Select(request, raw, g.kind) && CutWorldAt(es, n).Some?
    && var w := CutWorldAt(es, n).value;
       CanHappen(w, es[n]) && es[n].now < g.expiresAt && Usable(w.rows, raw, g)
  }

  /** The update of any verify that holds the token, or the withdrawal of the user's tokens of its kind. */
  predicate EndsGrant(w: CutWorld, e: CutEvent, raw: string, g: Grant) {
    match e.step
    case Other(op) => (op.Issue? || op.InvalidateAll?) && op.userId == g.userId && op.kind == g.kind
    case Select(_, _, _) => false
    case Mark(r) => r in w.holding && w.holding[r] == raw
  }

  predicate NotEnded(es: seq<CutEvent>, i: nat, j: nat, raw: string, g: Grant)
    requires i <= j <= |es|
  {
    forall k :: i <= k < j && CutWorldAt(es, k).Some? ==> !EndsGrant(CutWorldAt(es, k).value, es[k], raw, g)
  }

  ghost predicate CutInv(w: CutWorld) {
    && OnlyIssued(w.rows, w.issued)
    && forall r :: r in w.holding ==> w.holding[r] in w.issued
  }

  lemma CutInvStep(w: CutWorld, e: CutEvent)
    requires CutInv(w) && CanHappen(w, e)
    ensures CutInv(After(w, e))
  {
    if e.step.Select? && Sha256(e.step.raw) in w.rows {
      assert e.step.raw in w.issued;
    }
    var w' := After(w, e);
    forall h | h in w'.rows ensures h.text in w'.issued {
      if h in w.rows { assert h.text in w.issued; }
    }
  }

  lemma {:induction false} CutInvAt(es: seq<CutEvent>, n: nat, w: CutWorld)
    requires Arrives(es, n, w)
    ensures CutInv(w)
  {
    hide After, CanHappen;
    if n > 0 {
      var before := CutWorldAt(es, n - 1).value;
      CutInvAt(es, n - 1, before);
      CutInvStep(before, es[n - 1]);
    }
  }

  lemma UsableStep(w: CutWorld, e: CutEvent, raw: string, g: Grant)
    requires CutInv(w) && CanHappen(w, e) && e.now < g.expiresAt && raw in w.issued
    ensures Usable(After(w, e).rows, raw, g) <==> Usable(w.rows, raw, g) && !EndsGrant(w, e, raw, g)
    ensures raw in After(w, e).issued
  {
  }

  lemma UsableIsIssued(w: CutWorld, raw: string, g: Grant)
    requires CutInv(w) && Usable(w.rows, raw, g)
    ensures raw in w.issued
  {
  }

  lemma {:induction false} UsableUntilEnded(es: seq<CutEvent>, i: nat, j: nat, w: CutWorld, w': CutWorld, raw: string, g: Grant)
    requires i <= j && Arrives(es, i, w) && Arrives(es, j, w') && Usable(w.rows, raw, g) && w'.clock < g.expiresAt
    ensures Usable(w'.rows, raw, g) <==> NotEnded(es, i, j, raw, g)
    ensures raw in w'.issued
  {
    hide After, CanHappen, EndsGrant, Usable;
    if i == j {
      CutInvAt(es, i, w);
      UsableIsIssued(w, raw, g);
    } else {
      var before := CutWorldAt(es, j - 1).value;
      ClockStep(before, es[j - 1]);
      UsableUntilEnded(es, i, j - 1, w, before, raw, g);
      CutInvAt(es, j - 1, before);
      UsableStep(before, es[j - 1], raw, g);
    }
  }

  lemma ClockStep(w: CutWorld, e: CutEvent)
    requires CanHappen(w, e)
    ensures After(w, e).clock == e.now >= w.clock
  {
  }

  lemma HolderStep(w: CutWorld, e: CutEvent, r: RequestId)
    requires CanHappen(w, e) && r in w.holding && e.step != Mark(r)
    ensures r in After(w, e).holding && After(w, e).holding[r] == w.holding[r]
  {
  }

  /** A verify holds its token until its update. */
  lemma {:induction false} HoldsUntilMarked(es: seq<CutEvent>, i: nat, j: nat, w: CutWorld, w': CutWorld, r: RequestId, raw: string, g: Grant)
    requires i <= j && Arrives(es, i, w) && Arrives(es, j, w')
    requires r in w.holding && w.holding[r] == raw && NotEnded(es, i, j, raw, g)
    ensures r in w'.holding && w'.holding[r] == raw
  {
    hide After, CanHappen;
    if i < j {
      var before := CutWorldAt(es, j - 1).value;
      HoldsUntilMarked(es, i, j - 1, w, before, r, raw, g);
      assert !EndsGrant(before, es[j - 1], raw, g);
      HolderStep(before, es[j - 1], r);
    }
  }

  /** After a verify found the token at event i, a second one at event j succeeds exactly when the grant
      has not expired and neither a withdrawal nor the update of any verify of the token came between. */
  lemma SecondVerifyExactly(es: seq<CutEvent>, i: nat, j: nat, r: RequestId, r': RequestId, raw: string, g: Grant)
    requires i < j < |es| && SucceedsAt(es, i, r, raw, g)
    requires CutWorldAt(es, j).Some? && CanHappen(CutWorldAt(es, j).value, es[j]) && es[j].step == Select(r', raw, g.kind)
    ensures SucceedsAt(es, j, r', raw, g) <==> es[j].now < g.expiresAt && NotEnded(es, i, j, raw, g)
  {
    hide After, EndsGrant, Usable;
    if es[j].now < g.expiresAt {
      UsableUntilEnded(es, i, j, CutWorldAt(es, i).value, CutWorldAt(es, j).value, raw, g);
    }
  }

  lemma SelectHolds(w: CutWorld, e: CutEvent, g: Grant)
    requires CanHappen(w, e) && e.step.Select? && e.step.kind == g.kind && e.now < g.expiresAt
    requires Usable(w.rows, e.step.raw, g)
    ensures e.step.request in After(w, e).holding && After(w, e).holding[e.step.request] == e.step.raw
    ensures PgSelected(w.rows, e.step.raw, e.step.kind, e.now) == Some(g.userId)
  {
  }

  lemma {:induction false} ArrivesBefore(es: seq<CutEvent>, m: nat, n: nat)
    requires m <= n <= |es| && CutWorldAt(es, n).Some?
    ensures CutWorldAt(es, m).Some?
  {
    hide After, CanHappen;
    if m < n {
      ArrivesBefore(es, m, n - 1);
    }
  }

  /** So it takes an overlap: the first verify has still not done its update when the second succeeds. */
  lemma SecondVerifyOverlaps(es: seq<CutEvent>, i: nat, j: nat, r: RequestId, r': RequestId, raw: string, g: Grant)
    requires i < j && SucceedsAt(es, i, r, raw, g) && SucceedsAt(es, j, r', raw, g)
    ensures r in CutWorldAt(es, j).value.holding && CutWorldAt(es, j).value.holding[r] == raw
  {
    hide After, CanHappen, EndsGrant, Usable;
    SecondVerifyExactly(es, i, j, r, r', raw, g);
    ArrivesBefore(es, i + 1, j);
    SelectHolds(CutWorldAt(es, i).value, es[i], g);
    HoldsUntilMarked(es, i + 1, j, CutWorldAt(es, i + 1).value, CutWorldAt(es, j).value, r, raw, g);
  }

  /** With nothing in between, the two halves are verify as one step, and leave nobody holding the token. */
  lemma HalvesMakeVerify(w: CutWorld, r: RequestId, raw: string, kind: Kind, now: int)
    requires CanHappen(w, CutEvent(Select(r, raw, kind), now))
    ensures var half := After(w, CutEvent(Select(r, raw, kind), now));
            var (rows, answer) := PgVerified(w.rows, raw, kind, now);
            if answer.Verified? then
              CanHappen(half, CutEvent(Mark(r), now))
              && After(half, CutEvent(Mark(r), now)).rows == rows && After(half, CutEvent(Mark(r), now)).holding == w.holding
            else half.rows == rows && half.holding == w.holding
  {
  }

  /** One token, two overlapping verifies. */
  function TwiceRun(): seq<CutEvent> {
    [CutEvent(Other(Create("u", PasswordReset, 1, "t")), 0), CutEvent(Select(1, "t", PasswordReset), 0),
     CutEvent(Select(2, "t", PasswordReset), 0), CutEvent(Mark(1), 0), CutEvent(Mark(2), 0)]
  }

  /** Both succeed, and the run goes through to the end. */
  lemma OverlapVerifiesTwice()
    ensures SucceedsAt(TwiceRun(), 1, 1, "t", Grant("u", PasswordReset, 1))
    ensures SucceedsAt(TwiceRun(), 2, 2, "t", Grant("u", PasswordReset, 1))
    ensures CutWorldAt(TwiceRun(), 5).Some?
  {
    var es := TwiceRun();
    var g := Grant("u", PasswordReset, 1);
    var created := After(CutWorldAt(es, 0).value, es[0]);
    assert CutWorldAt(es, 1) == Some(created) && Usable(created.rows, "t", g);
    var first := After(created, es[1]);
    assert CutWorldAt(es, 2) == Some(first) && first.holding == map[1 := "t"];
    var second := After(first, es[2]);
    assert CutWorldAt(es, 3) == Some(second) && second.holding == map[1 := "t", 2 := "t"];
    var marked := After(second, es[3]);
    assert CutWorldAt(es, 4) == Some(marked) && 2 in marked.holding;
  }
}
