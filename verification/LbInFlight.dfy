/** The counters on a backend object under every interleaving of concurrent requests and pool
    refreshes. Each atomic update is a step of its own. */
module LbInFlight {
  import opened Options
  import opened Counting

  /** Where one forward to a backend stands: chosen by the balancer, in flight, counted as a request,
      returned with or without an answer, blamed on the backend, finished. */
  datatype Phase = Picked | Connected | Sent | Answered | Failed | Blamed | Left(blamed: bool)

  /** `replied` records, beside the code, whether the backend answered once the call has returned. */
  datatype Attempt = Attempt(backend: nat, phase: Phase, replied: Option<bool>)

  datatype Counters = Counters(active: int, requests: int, errors: int)

  /** Backend objects are numbered in order of creation; one dropped from the pool lives on while
      attempts still hold it. */
  datatype World = World(pool: seq<nat>, counters: seq<Counters>, attempts: seq<Attempt>)

  datatype Event =
    | Pick(backend: nat)
    | IncConnections(i: nat)
    | IncRequests(i: nat)
    | Return(i: nat, ok: bool)
    | IncErrors(i: nat)
    | DecConnections(i: nat)
    | Refresh(pool: seq<nat>, created: nat)

  predicate InPhase(w: World, i: nat, phase: Phase) {
    i < |w.attempts| && w.attempts[i].backend < |w.counters| && w.attempts[i].phase == phase
  }

  predicate Enabled(w: World, e: Event) {
    match e
    case Pick(b) => b in w.pool
    case IncConnections(i) => InPhase(w, i, Picked)
    case IncRequests(i) => InPhase(w, i, Connected)
    case Return(i, _) => InPhase(w, i, Sent)
    case IncErrors(i) => InPhase(w, i, Failed)
    case DecConnections(i) => InPhase(w, i, Answered) || InPhase(w, i, Blamed)
    case Refresh(pool, created) => Resolves(w, pool, created)
  }

  /** A refreshed pool holds objects of the pool before it and objects made for it. */
  predicate Resolves(w: World, pool: seq<nat>, created: nat) {
    forall b :: b in pool ==> b in w.pool || |w.counters| <= b < |w.counters| + created
  }

  /** Attempt i goes to its next phase while its backend's counters change. */
  function Move(w: World, i: nat, phase: Phase, replied: Option<bool>, change: Counters -> Counters): World
    requires i < |w.attempts| && w.attempts[i].backend < |w.counters|
  {
    var b := w.attempts[i].backend;
    w.(attempts := w.attempts[i := Attempt(b, phase, replied)], counters := w.counters[b := change(w.counters[b])])
  }

  function Apply(w: World, e: Event): World
    requires Enabled(w, e)
  {
    match e
    case Pick(b) => w.(attempts := w.attempts + [Attempt(b, Picked, None)])
    case IncConnections(i) => Move(w, i, Connected, None, (c: Counters) => c.(active := c.active + 1))
    case IncRequests(i) => Move(w, i, Sent, None, (c: Counters) => c.(requests := c.requests + 1))
    case Return(i, ok) => Move(w, i, if ok then Answered else Failed, Some(ok), (c: Counters) => c)
    case IncErrors(i) => Move(w, i, Blamed, w.attempts[i].replied, (c: Counters) => c.(errors := c.errors + 1))
    case DecConnections(i) =>
      Move(w, i, Left(w.attempts[i].phase.Blamed?), w.attempts[i].replied, (c: Counters) => c.(active := c.active - 1))
    case Refresh(pool, created) =>
      w.(pool := pool, counters := w.counters + seq(created, _ => Counters(0, 0, 0)))
  }

  predicate Runs(w: World, run: seq<Event>)
    decreases |run|
  {
    run == [] || (Enabled(w, run[0]) && Runs(Apply(w, run[0]), run[1..]))
  }

  function After(w: World, run: seq<Event>): World
    requires Runs(w, run)
    decreases |run|
  {
    if run == [] then w else After(Apply(w, run[0]), run[1..])
  }

  // ----- what the counters stand for

  predicate IsInside(phase: Phase) {
    !phase.Picked? && !phase.Left?
  }

  predicate IsSent(phase: Phase) {
    !phase.Picked? && !phase.Connected?
  }

  predicate IsBlamed(phase: Phase) {
    phase.Blamed? || (phase.Left? && phase.blamed)
  }

  /** Attempts between taking a connection on b and giving it back. */
  function Inside(b: nat): Attempt -> bool {
    (t: Attempt) => t.backend == b && IsInside(t.phase)
  }

  function SentTo(b: nat): Attempt -> bool {
    (t: Attempt) => t.backend == b && IsSent(t.phase)
  }

  function BlamedOn(b: nat): Attempt -> bool {
    (t: Attempt) => t.backend == b && IsBlamed(t.phase)
  }

  predicate Accounted(w: World, b: nat)
    requires b < |w.counters|
  {
    w.counters[b] == Counters(Count(w.attempts, Inside(b)), Count(w.attempts, SentTo(b)), Count(w.attempts, BlamedOn(b)))
  }

  /** The phase says what is known of the reply, and only a failure is blamed. */
  predicate Tells(t: Attempt) {
    match t.phase
    case Picked | Connected | Sent => t.replied == None
    case Answered => t.replied == Some(true)
    case Failed | Blamed => t.replied == Some(false)
    case Left(blamed) => t.replied == Some(!blamed)
  }

  ghost predicate Inv(w: World) {
    && (forall b :: b in w.pool ==> b < |w.counters|)
    && (forall i :: 0 <= i < |w.attempts| ==> w.attempts[i].backend < |w.counters| && Tells(w.attempts[i]))
    && (forall b :: 0 <= b < |w.counters| ==> Accounted(w, b))
  }

  /** A change of phase and a change of counters that agree keep every object's account. */
  lemma MoveKeeps(w: World, i: nat, phase: Phase, replied: Option<bool>, change: Counters -> Counters)
    requires Inv(w) && i < |w.attempts| && Tells(Attempt(w.attempts[i].backend, phase, replied))
    requires var was, c := w.attempts[i].phase, w.counters[w.attempts[i].backend];
             change(c) == Counters(c.active + Gain(IsInside(was), IsInside(phase)),
                                   c.requests + Gain(IsSent(was), IsSent(phase)),
                                   c.errors + Gain(IsBlamed(was), IsBlamed(phase)))
    ensures Inv(Move(w, i, phase, replied, change))
  {
    var next := Move(w, i, phase, replied, change);
    var moved := Attempt(w.attempts[i].backend, phase, replied);
    forall b | 0 <= b < |w.counters| ensures Accounted(next, b) {
      assert Accounted(w, b);
      CountUpdate(w.attempts, i, moved, Inside(b));
      CountUpdate(w.attempts, i, moved, SentTo(b));
      CountUpdate(w.attempts, i, moved, BlamedOn(b));
    }
  }

  /** How much one attempt adds to a count when its membership changes. */
  function Gain(before: bool, after: bool): int {
    (if after then 1 else 0) - (if before then 1 else 0)
  }

  lemma PickKeeps(w: World, b: nat)
    requires Inv(w) && b in w.pool
    ensures Inv(Apply(w, Pick(b)))
  {
    var next := Apply(w, Pick(b));
    forall c | 0 <= c < |w.counters| ensures Accounted(next, c) {
      assert Accounted(w, c);
      CountAppend(w.attempts, Attempt(b, Picked, None), Inside(c));
      CountAppend(w.attempts, Attempt(b, Picked, None), SentTo(c));
      CountAppend(w.attempts, Attempt(b, Picked, None), BlamedOn(c));
    }
  }

  /** Nobody is counted at an object that does not exist yet. */
  lemma {:induction false} CountsNone(attempts: seq<Attempt>, p: Attempt -> bool)
    requires forall i :: 0 <= i < |attempts| ==> !p(attempts[i])
    ensures Count(attempts, p) == 0
  {
    if attempts == [] {
    } else {
      CountsNone(attempts[..|attempts| - 1], p);
    }
  }

  lemma RefreshKeepsAccounts(w: World, pool: seq<nat>, created: nat)
    requires Inv(w) && Resolves(w, pool, created)
    ensures Inv(Apply(w, Refresh(pool, created)))
  {
    var next := Apply(w, Refresh(pool, created));
    forall b | 0 <= b < |next.counters| ensures Accounted(next, b) {
      if b < |w.counters| {
        assert Accounted(w, b);
      } else {
        CountsNone(w.attempts, Inside(b));
        CountsNone(w.attempts, SentTo(b));
        CountsNone(w.attempts, BlamedOn(b));
      }
    }
  }

  lemma StepKeepsInv(w: World, e: Event)
    requires Inv(w) && Enabled(w, e)
    ensures Inv(Apply(w, e))
  {
    match e
    case Pick(b) => PickKeeps(w, b);
    case IncConnections(i) => MoveKeeps(w, i, Connected, None, (c: Counters) => c.(active := c.active + 1));
    case IncRequests(i) => MoveKeeps(w, i, Sent, None, (c: Counters) => c.(requests := c.requests + 1));
    case Return(i, ok) => MoveKeeps(w, i, if ok then Answered else Failed, Some(ok), (c: Counters) => c);
    case IncErrors(i) => MoveKeeps(w, i, Blamed, w.attempts[i].replied, (c: Counters) => c.(errors := c.errors + 1));
    case DecConnections(i) =>
      MoveKeeps(w, i, Left(w.attempts[i].phase.Blamed?), w.attempts[i].replied, (c: Counters) => c.(active := c.active - 1));
    case Refresh(pool, created) => RefreshKeepsAccounts(w, pool, created);
  }

  lemma {:induction false} RunKeepsInv(w: World, run: seq<Event>)
    requires Inv(w) && Runs(w, run)
    ensures Inv(After(w, run))
    decreases |run|
  {
    if run == [] {
    } else {
      StepKeepsInv(w, run[0]);
      RunKeepsInv(Apply(w, run[0]), run[1..]);
    }
  }

  lemma {:induction false} CountImplied(attempts: seq<Attempt>, p: Attempt -> bool, q: Attempt -> bool)
    requires forall t :: p(t) ==> q(t)
    ensures Count(attempts, p) <= Count(attempts, q)
  {
    if attempts == [] {
    } else {
      CountImplied(attempts[..|attempts| - 1], p, q);
    }
  }

  /** A proxy that has not resolved a pool yet. */
  predicate Initial(w: World) {
    w.pool == [] && w.counters == [] && w.attempts == []
  }

  /** In every interleaving, every object's active count is the number of attempts inside it, its
      totals are the attempts that got that far, and its errors are at most its requests. */
  lemma InFlightExact(start: World, run: seq<Event>, b: nat)
    requires Initial(start) && Runs(start, run) && b < |After(start, run).counters|
    ensures var w := After(start, run);
            && w.counters[b].active == Count(w.attempts, Inside(b))
            && w.counters[b].requests == Count(w.attempts, SentTo(b))
            && w.counters[b].errors == Count(w.attempts, BlamedOn(b))
            && 0 <= w.counters[b].errors <= w.counters[b].requests
  {
    var w := After(start, run);
    RunKeepsInv(start, run);
    assert Accounted(w, b);
    CountImplied(w.attempts, BlamedOn(b), SentTo(b));
  }

  /** Attempts that were handed backend b. */
  function At(b: nat): Attempt -> bool {
    (t: Attempt) => t.backend == b
  }

  /** Attempts whose call to backend b failed. */
  function FailedAt(b: nat): Attempt -> bool {
    (t: Attempt) => t.backend == b && t.replied == Some(false)
  }

  lemma {:induction false} CountSame(attempts: seq<Attempt>, p: Attempt -> bool, q: Attempt -> bool)
    requires forall i :: 0 <= i < |attempts| ==> p(attempts[i]) == q(attempts[i])
    ensures Count(attempts, p) == Count(attempts, q)
  {
    if attempts == [] {
    } else {
      CountSame(attempts[..|attempts| - 1], p, q);
    }
  }

  /** Once every attempt has finished, no connection is counted anywhere, every attempt is counted as a
      request to its backend, and exactly the failed calls are counted as errors. */
  lemma QuietTotals(start: World, run: seq<Event>, b: nat)
    requires Initial(start) && Runs(start, run) && b < |After(start, run).counters|
    requires forall i :: 0 <= i < |After(start, run).attempts| ==> After(start, run).attempts[i].phase.Left?
    ensures var w := After(start, run);
            && w.counters[b].active == 0 && w.counters[b].requests == Count(w.attempts, At(b))
            && w.counters[b].errors == Count(w.attempts, FailedAt(b))
  {
    var w := After(start, run);
    RunKeepsInv(start, run);
    assert Accounted(w, b);
    CountsNone(w.attempts, Inside(b));
    CountSame(w.attempts, SentTo(b), At(b));
    CountSame(w.attempts, BlamedOn(b), FailedAt(b));
  }

  /** No step, a refresh included, drops an object that exists or sets one of its totals back. */
  lemma {:induction false} TotalsNeverFall(w: World, run: seq<Event>, b: nat)
    requires Runs(w, run) && b < |w.counters|
    ensures b < |After(w, run).counters|
    ensures After(w, run).counters[b].requests >= w.counters[b].requests
    ensures After(w, run).counters[b].errors >= w.counters[b].errors
    decreases |run|
  {
    if run == [] {
    } else {
      TotalsNeverFall(Apply(w, run[0]), run[1..], b);
    }
  }
}
