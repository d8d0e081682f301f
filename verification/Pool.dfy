/** The connection-pool rendezvous (bench/fetch_tls_pool.zig:63-86, 121-137): `target` threads each
    take a connection and hold it until every one of them has been counted. A run is any
    interleaving of their atomic steps, with any requests, answers and thread starts failing.
    The client's pool hands out a free connection when it has one and opens one when it has none. */
module Pool {

  type Conn = nat

  /** Where a thread is in `one`. A thread that cannot be started stays `Unborn`. */
  datatype Pc =
    | Unborn
    | Asking
    | NoConnection                  // `failed` is counted, `arrived` not yet
    | Working(conn: Conn)
    | Broken(conn: Conn)            // `failed` is counted, `arrived` not yet
    | Dropping(conn: Conn)          // both counted; about to close the connection
    | Spinning(conn: Conn)          // arrived, and reading `arrived` until it is `want`
    | Leaving(conn: Conn)           // saw it; about to give the connection back
    | Gone

  /** Where the step in `main` is, with how many threads it started. */
  datatype Main = Spawning(started: nat) | Patching(started: nat) | Joining(started: nat) | Finished(started: nat)

  datatype State = State(
    main: Main,
    threads: seq<Pc>,
    arrived: nat,
    failed: nat,
    free: set<Conn>,
    made: nat,
    // what has happened so far
    took: nat,
    opens: nat,
    requestsFailed: nat,
    bodiesFailed: nat,
    closed: nat,
    returned: nat)

  function Below(n: nat): set<Conn> {
    if n == 0 then {} else Below(n - 1) + {n - 1}
  }

  function Start(target: nat, previous: nat): State {
    State(if target == 0 then Patching(0) else Spawning(0), seq(target, i => Unborn), 0, 0,
          Below(previous), previous, 0, 0, 0, 0, 0, 0)
  }

  /** What a thread does next. */
  datatype Act =
    | RequestFails
    | TakeFree(conn: Conn)
    | Open
    | CountNoConnection
    | ReadBody
    | FailBody
    | CountBroken
    | Close
    | SeeAll
    | GiveBack

  datatype Step = Spawn | SpawnFails | Patch | Join | Thread(i: nat, act: Act)

  predicate May(s: State, p: Pc, act: Act) {
    match act
    case RequestFails => p.Asking?
    case TakeFree(c) => p.Asking? && c in s.free
    case Open => p.Asking? && s.free == {}
    case CountNoConnection => p.NoConnection?
    case ReadBody => p.Working?
    case FailBody => p.Working?
    case CountBroken => p.Broken?
    case Close => p.Dropping?
    case SeeAll => p.Spinning? && s.arrived >= |s.threads|
    case GiveBack => p.Leaving?
  }

  function MoveTo(s: State, p: Pc, act: Act): Pc
    requires May(s, p, act)
  {
    match act
    case RequestFails => NoConnection
    case TakeFree(c) => Working(c)
    case Open => Working(s.made)
    case CountNoConnection => Gone
    case ReadBody => Spinning(p.conn)
    case FailBody => Broken(p.conn)
    case CountBroken => Dropping(p.conn)
    case Close => Gone
    case SeeAll => Leaving(p.conn)
    case GiveBack => Gone
  }

  /** What that changes besides the thread itself. */
  function Effect(s: State, p: Pc, act: Act): State
    requires May(s, p, act)
  {
    match act
    case RequestFails => s.(failed := s.failed + 1, requestsFailed := s.requestsFailed + 1)
    case TakeFree(c) => s.(free := s.free - {c}, took := s.took + 1)
    case Open => s.(made := s.made + 1, took := s.took + 1, opens := s.opens + 1)
    case CountNoConnection => s.(arrived := s.arrived + 1)
    case ReadBody => s.(arrived := s.arrived + 1)
    case FailBody => s.(failed := s.failed + 1, bodiesFailed := s.bodiesFailed + 1)
    case CountBroken => s.(arrived := s.arrived + 1)
    case Close => s.(closed := s.closed + 1)
    case SeeAll => s
    case GiveBack => s.(free := s.free + {p.conn}, returned := s.returned + 1)
  }

  predicate Enabled(s: State, step: Step) {
    match step
    case Spawn => s.main.Spawning? && s.main.started < |s.threads|
    case SpawnFails => s.main.Spawning?
    case Patch => s.main.Patching? && s.main.started <= |s.threads|
    case Join => s.main.Joining? && forall i :: 0 <= i < |s.threads| ==> s.threads[i].Gone? || s.threads[i].Unborn?
    case Thread(i, act) => i < |s.threads| && May(s, s.threads[i], act)
  }

  function ThreadStep(s: State, i: nat, act: Act): State
    requires i < |s.threads| && May(s, s.threads[i], act)
  {
    Effect(s, s.threads[i], act).(threads := s.threads[i := MoveTo(s, s.threads[i], act)])
  }

  function Apply(s: State, step: Step): State
    requires Enabled(s, step)
  {
    match step
    case Spawn =>
      var k := s.main.started;
      s.(threads := s.threads[k := Asking], main := if k + 1 < |s.threads| then Spawning(k + 1) else Patching(k + 1))
    case SpawnFails => s.(main := Patching(s.main.started))
    case Patch => s.(arrived := s.arrived + (|s.threads| - s.main.started), main := Joining(s.main.started))
    case Join => s.(main := Finished(s.main.started))
    case Thread(i, act) => ThreadStep(s, i, act)
  }

  // ---- runs ----

  predicate Possible(target: nat, previous: nat, steps: seq<Step>)
    decreases |steps|, 0
  {
    steps == [] ||
    (var before := steps[..|steps| - 1];
     Possible(target, previous, before) && Enabled(Exec(target, previous, before), steps[|steps| - 1]))
  }

  function Exec(target: nat, previous: nat, steps: seq<Step>): State
    requires Possible(target, previous, steps)
    decreases |steps|, 1
  {
    if steps == [] then Start(target, previous)
    else Apply(Exec(target, previous, steps[..|steps| - 1]), steps[|steps| - 1])
  }

  // ---- counting threads ----

  function Count(want: Pc -> bool, ts: seq<Pc>): nat {
    if ts == [] then 0 else Count(want, ts[..|ts| - 1]) + (if want(ts[|ts| - 1]) then 1 else 0)
  }

  lemma {:induction false} CountUpdate(want: Pc -> bool, ts: seq<Pc>, i: nat, p: Pc)
    requires i < |ts|
    ensures Count(want, ts[i := p]) == Count(want, ts) - (if want(ts[i]) then 1 else 0) + (if want(p) then 1 else 0)
    decreases |ts|
  {
    var n := |ts| - 1;
    if i < n {
      assert ts[i := p][..n] == ts[..n][i := p];
      CountUpdate(want, ts[..n], i, p);
    } else {
      assert ts[i := p][..n] == ts[..n];
    }
  }

  lemma {:induction false} CountNone(want: Pc -> bool, ts: seq<Pc>)
    requires forall i :: 0 <= i < |ts| ==> !want(ts[i])
    ensures Count(want, ts) == 0
    decreases |ts|
  {
    if ts != [] { CountNone(want, ts[..|ts| - 1]); }
  }

  lemma {:induction false} CountBound(want: Pc -> bool, ts: seq<Pc>, k: nat)
    requires k <= |ts| && forall i :: k <= i < |ts| ==> !want(ts[i])
    ensures Count(want, ts) <= k
    ensures Count(want, ts) == k ==> forall i :: 0 <= i < k ==> want(ts[i])
    decreases |ts|
  {
    if ts != [] {
      var n := |ts| - 1;
      if k <= n {
        CountBound(want, ts[..n], k);
      } else {
        CountBound(want, ts[..n], n);
      }
    }
  }

  /** Counted in `arrived`. */
  predicate HasArrived(p: Pc) { p.Dropping? || p.Spinning? || p.Leaving? || p.Gone? }

  predicate Holds(p: Pc) { p.Working? || p.Broken? || p.Dropping? || p.Spinning? || p.Leaving? }

  /** Past its request, with or without a connection. */
  predicate Decided(p: Pc) { !p.Unborn? && !p.Asking? }

  predicate Failing(p: Pc) { p.Broken? || p.Dropping? }

  // ---- what every state keeps ----

  /** `started` is how many threads exist, and they are the first ones. */
  ghost predicate Births(s: State) {
    && s.main.started <= |s.threads|
    && (s.main.Spawning? ==> s.main.started < |s.threads|)
    && forall i :: 0 <= i < |s.threads| ==> (s.threads[i].Unborn? <==> i >= s.main.started)
  }

  function Missing(s: State): nat
    requires s.main.started <= |s.threads|
  {
    if s.main.Joining? || s.main.Finished? then |s.threads| - s.main.started else 0
  }

  /** `arrived` counts the threads that arrived and, once patched, the ones never started. */
  ghost predicate Arrivals(s: State) {
    && Births(s)
    && s.arrived == Count(HasArrived, s.threads) + Missing(s)
    && (forall i :: 0 <= i < |s.threads| && s.threads[i].Leaving? ==> s.arrived >= |s.threads|)
    && (s.returned > 0 ==> s.arrived >= |s.threads|)
  }

  /** No connection is in two hands, or in a hand and in the pool. */
  ghost predicate Exclusive(s: State) {
    && (forall i, j :: 0 <= i < j < |s.threads| && Holds(s.threads[i]) && Holds(s.threads[j])
          ==> s.threads[i].conn != s.threads[j].conn)
    && (forall i :: 0 <= i < |s.threads| && Holds(s.threads[i])
          ==> s.threads[i].conn !in s.free && s.threads[i].conn < s.made)
    && (forall c :: c in s.free ==> c < s.made)
  }

  /** Every connection and every failure is accounted for. */
  ghost predicate Ledger(previous: nat, s: State) {
    && |s.free| + Count(Holds, s.threads) == previous + s.opens - s.closed
    && Count(Holds, s.threads) == s.took - s.closed - s.returned
    && s.took + s.requestsFailed == Count(Decided, s.threads)
    && s.bodiesFailed == s.closed + Count(Failing, s.threads)
    && s.failed == s.requestsFailed + s.bodiesFailed
    && (s.returned == 0 && s.opens > 0 ==> s.free == {})
    && s.opens == if s.took > previous then s.took - previous else 0
  }

  ghost predicate Inv(previous: nat, s: State) {
    Arrivals(s) && Exclusive(s) && Ledger(previous, s)
  }

  /** When everybody has been counted, nobody is still on the way. */
  lemma AllCounted(s: State)
    requires Arrivals(s) && s.arrived >= |s.threads|
    ensures s.arrived == |s.threads|
    ensures forall i :: 0 <= i < |s.threads| ==> s.threads[i].Unborn? || HasArrived(s.threads[i])
    ensures s.main.Joining? || s.main.Finished? || s.main.started == |s.threads|
  {
    CountBound(HasArrived, s.threads, s.main.started);
  }

  lemma ArrivalsThread(s: State, i: nat, act: Act)
    requires Enabled(s, Thread(i, act)) && Arrivals(s)
    ensures Arrivals(Apply(s, Thread(i, act)))
  {
    CountUpdate(HasArrived, s.threads, i, MoveTo(s, s.threads[i], act));
    hide Count;
  }

  lemma ArrivalsStep(s: State, step: Step)
    requires Enabled(s, step) && Arrivals(s)
    ensures Arrivals(Apply(s, step))
  {
    hide Count;
    match step
    case Spawn => CountUpdate(HasArrived, s.threads, s.main.started, Asking);
    case SpawnFails =>
    case Patch => CountBound(HasArrived, s.threads, s.main.started);
    case Join =>
    case Thread(i, act) => ArrivalsThread(s, i, act);
  }

  lemma ExclusiveStep(s: State, step: Step)
    requires Enabled(s, step) && Exclusive(s)
    ensures Exclusive(Apply(s, step))
  {
  }

  lemma LedgerStep(previous: nat, s: State, step: Step)
    requires Enabled(s, step) && Inv(previous, s)
    ensures Ledger(previous, Apply(s, step))
  {
    hide Exclusive, Count, Arrivals;
    match step
    case Spawn =>
      assert s.threads[s.main.started].Unborn? by { SpawnsUnborn(s); }
      CountsMove(s, s.main.started, Asking);
    case SpawnFails =>
    case Patch =>
    case Join =>
    case Thread(i, act) => LedgerThread(previous, s, i, act);
  }

  lemma SpawnsUnborn(s: State)
    requires Arrivals(s) && s.main.Spawning?
    ensures s.threads[s.main.started].Unborn?
  {
  }

  lemma PoolSizes(s: State, i: nat, act: Act)
    requires i < |s.threads| && May(s, s.threads[i], act) && Exclusive(s)
    ensures |Effect(s, s.threads[i], act).free| == |s.free| + (if act.GiveBack? then 1 else 0) - (if act.TakeFree? then 1 else 0)
    ensures s.free == {} && !act.GiveBack? ==> Effect(s, s.threads[i], act).free == {}
  {
  }

  lemma LedgerThread(previous: nat, s: State, i: nat, act: Act)
    requires i < |s.threads| && May(s, s.threads[i], act) && Inv(previous, s)
    ensures Ledger(previous, ThreadStep(s, i, act))
  {
    PoolSizes(s, i, act);
    CountsMove(s, i, MoveTo(s, s.threads[i], act));
    if s.threads[i].Asking? { NotAllCounted(s, i); }
    hide Exclusive, Count, Arrivals;
  }

  lemma CountsMove(s: State, i: nat, p: Pc)
    requires i < |s.threads|
    ensures var ts := s.threads[i := p];
            && Count(Holds, ts) == Count(Holds, s.threads) - (if Holds(s.threads[i]) then 1 else 0) + (if Holds(p) then 1 else 0)
            && Count(Decided, ts) == Count(Decided, s.threads) - (if Decided(s.threads[i]) then 1 else 0) + (if Decided(p) then 1 else 0)
            && Count(Failing, ts) == Count(Failing, s.threads) - (if Failing(s.threads[i]) then 1 else 0) + (if Failing(p) then 1 else 0)
  {
    CountUpdate(Holds, s.threads, i, p);
    CountUpdate(Decided, s.threads, i, p);
    CountUpdate(Failing, s.threads, i, p);
  }

  /** While a thread is still asking, nothing has gone back to the pool. */
  lemma NotAllCounted(s: State, i: nat)
    requires Arrivals(s) && i < |s.threads| && s.threads[i].Asking?
    ensures s.arrived < |s.threads| && s.returned == 0
  {
    if s.arrived >= |s.threads| { AllCounted(s); }
  }

  lemma StartInv(target: nat, previous: nat)
    ensures Inv(previous, Start(target, previous))
  {
    var s := Start(target, previous);
    CountNone(HasArrived, s.threads);
    CountNone(Holds, s.threads);
    CountNone(Decided, s.threads);
    CountNone(Failing, s.threads);
    BelowCount(previous);
  }

  lemma BelowCount(n: nat)
    ensures |Below(n)| == n && forall c :: c in Below(n) ==> c < n
  {
    if n > 0 { BelowCount(n - 1); }
  }

  lemma {:induction false} RunKeepsInv(target: nat, previous: nat, steps: seq<Step>)
    requires Possible(target, previous, steps)
    ensures Inv(previous, Exec(target, previous, steps))
    ensures |Exec(target, previous, steps).threads| == target
    decreases |steps|
  {
    if steps == [] {
      StartInv(target, previous);
    } else {
      var before, step := steps[..|steps| - 1], steps[|steps| - 1];
      RunKeepsInv(target, previous, before);
      var s := Exec(target, previous, before);
      assert |Apply(s, step).threads| == |s.threads|;
      hide Apply, Enabled, Arrivals, Exclusive, Ledger;
      ArrivalsStep(s, step);
      ExclusiveStep(s, step);
      LedgerStep(previous, s, step);
    }
  }

  // ---- the claims ----

  /** In every interleaving no connection is held by two threads, and one is given back only once
      every thread of the step, started or not, has been counted. */
  lemma NothingReturnsEarly(target: nat, previous: nat, steps: seq<Step>, i: nat)
    requires Possible(target, previous, steps)
    ensures var s := Exec(target, previous, steps);
            && Exclusive(s)
            && s.arrived <= target
            && (Enabled(s, Thread(i, GiveBack)) ==>
                  && s.arrived == target
                  && forall j :: 0 <= j < |s.threads| ==> s.threads[j].Unborn? || HasArrived(s.threads[j]))
  {
    RunKeepsInv(target, previous, steps);
    var s := Exec(target, previous, steps);
    hide Exec, Exclusive;
    if s.arrived >= target { AllCounted(s); }
  }

  /** The exact end of a step: everybody counted, the failures counted, and the pool holding the
      larger of what it had and what was taken, less what was closed. */
  lemma StepEndsExactly(target: nat, previous: nat, steps: seq<Step>)
    requires Possible(target, previous, steps) && Exec(target, previous, steps).main.Finished?
    ensures var s := Exec(target, previous, steps);
            && s.arrived == target
            && s.took == s.main.started - s.requestsFailed
            && s.failed == s.requestsFailed + s.closed
            && |s.free| == (if s.took > previous then s.took else previous) - s.closed
  {
    RunKeepsInv(target, previous, steps);
    var s := Exec(target, previous, steps);
    FinishedMeansGone(target, previous, steps);
    hide Exec;
    CountNone(Holds, s.threads);
    CountNone(Failing, s.threads);
    CountAll(HasArrived, s.threads, s.main.started);
    CountAll(Decided, s.threads, s.main.started);
  }

  lemma {:induction false} CountAll(want: Pc -> bool, ts: seq<Pc>, k: nat)
    requires k <= |ts| && forall i :: 0 <= i < |ts| ==> (want(ts[i]) <==> i < k)
    ensures Count(want, ts) == k
    decreases |ts|
  {
    if ts != [] {
      var n := |ts| - 1;
      CountAll(want, ts[..n], if k <= n then k else n);
    }
  }

  lemma {:induction false} FinishedMeansGone(target: nat, previous: nat, steps: seq<Step>)
    requires Possible(target, previous, steps) && Exec(target, previous, steps).main.Finished?
    ensures var s := Exec(target, previous, steps);
            forall i :: 0 <= i < |s.threads| ==> s.threads[i].Gone? || s.threads[i].Unborn?
    decreases |steps|
  {
    if steps != [] {
      var before := steps[..|steps| - 1];
      var s := Exec(target, previous, before);
      if s.main.Finished? { FinishedMeansGone(target, previous, before); }
      hide Exec;
      GoneStays(s, steps[|steps| - 1]);
    }
  }

  /** The step that finishes waits for every thread, and none moves after it. */
  lemma GoneStays(s: State, step: Step)
    requires Enabled(s, step) && Apply(s, step).main.Finished?
    requires s.main.Finished? ==> forall i :: 0 <= i < |s.threads| ==> s.threads[i].Gone? || s.threads[i].Unborn?
    ensures var t := Apply(s, step); forall i :: 0 <= i < |t.threads| ==> t.threads[i].Gone? || t.threads[i].Unborn?
  {
  }

  /** With every thread started and nothing failing the pool ends at the larger of what it had
      and the step's target. */
  lemma NoFailures(target: nat, previous: nat, steps: seq<Step>)
    requires Possible(target, previous, steps) && Exec(target, previous, steps).main == Finished(target)
    requires Exec(target, previous, steps).failed == 0
    ensures |Exec(target, previous, steps).free| == if target > previous then target else previous
  {
    hide Exec;
    StepEndsExactly(target, previous, steps);
  }

  // ---- the run's own steps ----

  /** How many of the steps are failures that are counted: a request without an answer, or a body. */
  function Failures(steps: seq<Step>): nat {
    if steps == [] then 0
    else
      var step := steps[|steps| - 1];
      Failures(steps[..|steps| - 1])
      + (if step.Thread? && (step.act.RequestFails? || step.act.FailBody?) then 1 else 0)
  }

  function Spawns(steps: seq<Step>): nat {
    if steps == [] then 0
    else Spawns(steps[..|steps| - 1]) + (if steps[|steps| - 1].Spawn? then 1 else 0)
  }

  /** Threads are started one by one until there are as many as the target, or one cannot be. */
  ghost predicate StartsOn(target: nat, steps: seq<Step>, s: State) {
    && |s.threads| == target && s.main.started == Spawns(steps) && s.main.started <= target
    && (s.main.Spawning? ==> SpawnFails !in steps && s.main.started < target)
    && (!s.main.Spawning? ==> (s.main.started == target <==> SpawnFails !in steps))
    && s.failed == Failures(steps)
  }

  lemma StartsStep(target: nat, before: seq<Step>, step: Step, s: State)
    requires Enabled(s, step) && StartsOn(target, before, s)
    ensures StartsOn(target, before + [step], Apply(s, step))
  {
    var steps := before + [step];
    assert steps[..|before|] == before;
    assert SpawnFails in steps <==> SpawnFails in before || step.SpawnFails?;
  }

  /** In every run as many threads are started as there are spawns, which is the target unless one
      fails; and `failed` is how many requests and bodies have failed. */
  lemma {:induction false} RunStartsOn(target: nat, previous: nat, steps: seq<Step>)
    requires Possible(target, previous, steps)
    ensures StartsOn(target, steps, Exec(target, previous, steps))
    decreases |steps|
  {
    if steps != [] {
      hide Enabled, Apply, StartsOn;
      var before, step := steps[..|steps| - 1], steps[|steps| - 1];
      RunStartsOn(target, previous, before);
      StartsStep(target, before, step, Exec(target, previous, before));
      assert before + [step] == steps;
    }
  }

  /** A run to its end without any failing step starts every thread and leaves the pool with the
      larger of what it had and the target. */
  lemma CleanRunEnds(target: nat, previous: nat, steps: seq<Step>)
    requires Possible(target, previous, steps) && Exec(target, previous, steps).main.Finished?
    requires SpawnFails !in steps && Failures(steps) == 0
    ensures var s := Exec(target, previous, steps);
            s.main == Finished(target) && s.failed == 0 && |s.free| == if target > previous then target else previous
  {
    RunStartsOn(target, previous, steps);
    hide Exec, Failures, Spawns;
    NoFailures(target, previous, steps);
  }

  // ---- nobody waits for ever ----

  function Rank(p: Pc): nat {
    match p
    case Unborn => 7
    case Asking => 6
    case NoConnection => 1
    case Working(_) => 5
    case Broken(_) => 3
    case Dropping(_) => 1
    case Spinning(_) => 2
    case Leaving(_) => 1
    case Gone => 0
  }

  function Ranks(ts: seq<Pc>): nat {
    if ts == [] then 0 else Ranks(ts[..|ts| - 1]) + Rank(ts[|ts| - 1])
  }

  lemma {:induction false} RanksUpdate(ts: seq<Pc>, i: nat, p: Pc)
    requires i < |ts|
    ensures Ranks(ts[i := p]) == Ranks(ts) - Rank(ts[i]) + Rank(p)
    decreases |ts|
  {
    var n := |ts| - 1;
    if i < n {
      assert ts[i := p][..n] == ts[..n][i := p];
      RanksUpdate(ts[..n], i, p);
    } else {
      assert ts[i := p][..n] == ts[..n];
    }
  }

  function Measure(s: State): nat {
    Ranks(s.threads) + match s.main case Spawning(_) => 3 case Patching(_) => 2 case Joining(_) => 1 case Finished(_) => 0
  }

  /** Every step but another look at the counter uses up some of what is ahead. */
  lemma StepsRunOut(s: State, step: Step)
    requires Enabled(s, step) && Births(s)
    ensures Measure(Apply(s, step)) < Measure(s)
  {
    match step
    case Spawn => RanksUpdate(s.threads, s.main.started, Asking);
    case SpawnFails =>
    case Patch =>
    case Join =>
    case Thread(i, act) => RanksUpdate(s.threads, i, MoveTo(s, s.threads[i], act));
  }

  /** Until the step is over something other than looking again is possible, and possible without
      anything failing: a spinning thread is never all that is left. */
  lemma SomethingCanStep(target: nat, previous: nat, steps: seq<Step>) returns (step: Step)
    requires Possible(target, previous, steps) && !Exec(target, previous, steps).main.Finished?
    ensures Enabled(Exec(target, previous, steps), step)
    ensures !step.SpawnFails? && (step.Thread? ==> !step.act.RequestFails? && !step.act.FailBody?)
  {
    RunKeepsInv(target, previous, steps);
    var s := Exec(target, previous, steps);
    hide Exec, Exclusive, Ledger;
    match s.main
    case Spawning(_) => step := Spawn;
    case Patching(_) => step := Patch;
    case Joining(_) =>
      if forall i :: 0 <= i < |s.threads| ==> s.threads[i].Gone? || s.threads[i].Unborn? {
        step := Join;
      } else {
        var i := SomeoneOnTheWay(s);
        step := NextStep(s, i);
      }
  }

  /** Some living thread that is not merely waiting for others. */
  lemma SomeoneOnTheWay(s: State) returns (i: nat)
    requires Arrivals(s) && s.main.Joining?
    requires exists i :: 0 <= i < |s.threads| && !s.threads[i].Gone? && !s.threads[i].Unborn?
    ensures i < |s.threads| && !s.threads[i].Gone? && !s.threads[i].Unborn?
    ensures s.threads[i].Spinning? ==> s.arrived >= |s.threads|
  {
    i :| 0 <= i < |s.threads| && !s.threads[i].Gone? && !s.threads[i].Unborn?;
    if s.threads[i].Spinning? && s.arrived < |s.threads| {
      if forall j :: 0 <= j < s.main.started ==> HasArrived(s.threads[j]) {
        CountAll(HasArrived, s.threads, s.main.started);
        assert false;
      }
      var j :| 0 <= j < s.main.started && !HasArrived(s.threads[j]);
      i := j;
    }
  }

  lemma NextStep(s: State, i: nat) returns (step: Step)
    requires i < |s.threads| && !s.threads[i].Gone? && !s.threads[i].Unborn?
    requires s.threads[i].Spinning? ==> s.arrived >= |s.threads|
    ensures Enabled(s, step)
    ensures !step.SpawnFails? && (step.Thread? ==> !step.act.RequestFails? && !step.act.FailBody?)
  {
    match s.threads[i]
    case Asking =>
      if s.free == {} { step := Thread(i, Open); } else {
        var c :| c in s.free;
        step := Thread(i, TakeFree(c));
      }
    case NoConnection => step := Thread(i, CountNoConnection);
    case Working(_) => step := Thread(i, ReadBody);
    case Broken(_) => step := Thread(i, CountBroken);
    case Dropping(_) => step := Thread(i, Close);
    case Spinning(_) => step := Thread(i, SeeAll);
    case Leaving(_) => step := Thread(i, GiveBack);
  }

  // ---- the series of steps ----

  /** Step k starts with the pool step k - 1 left and ends, none of its steps failing, at `sizes[k]`. */
  ghost predicate CleanSeries(first: nat, targets: seq<nat>, sizes: seq<nat>) {
    && |sizes| == |targets|
    && forall k :: 0 <= k < |targets| ==> CleanStep(targets[k], SizeBefore(first, sizes, k), sizes[k])
  }

  function SizeBefore(first: nat, sizes: seq<nat>, k: nat): nat
    requires k <= |sizes|
  {
    if k == 0 then first else sizes[k - 1]
  }

  ghost predicate CleanStep(target: nat, previous: nat, size: nat) {
    exists steps :: Possible(target, previous, steps)
                    && Exec(target, previous, steps).main.Finished?
                    && SpawnFails !in steps && Failures(steps) == 0
                    && |Exec(target, previous, steps).free| == size
  }

  function Largest(first: nat, targets: seq<nat>): nat {
    if targets == [] then first
    else
      var earlier := Largest(first, targets[..|targets| - 1]);
      if targets[|targets| - 1] > earlier then targets[|targets| - 1] else earlier
  }

  /** A whole series without failures: the pool always holds the largest target so far. */
  lemma {:induction false} SeriesHoldsLargest(first: nat, targets: seq<nat>, sizes: seq<nat>, k: nat)
    requires CleanSeries(first, targets, sizes) && k < |targets|
    ensures sizes[k] == Largest(first, targets[..k + 1])
    decreases k
  {
    hide CleanStep;
    var previous := SizeBefore(first, sizes, k);
    assert CleanStep(targets[k], previous, sizes[k]);
    CleanStepSize(targets[k], previous, sizes[k]);
    if k > 0 {
      SeriesHoldsLargest(first, targets, sizes, k - 1);
    }
    hide CleanSeries;
    assert targets[..k + 1][..k] == targets[..k];
  }

  lemma CleanStepSize(target: nat, previous: nat, size: nat)
    requires CleanStep(target, previous, size)
    ensures size == if target > previous then target else previous
  {
    hide Exec;
    var steps :| Possible(target, previous, steps)
                 && Exec(target, previous, steps).main.Finished?
                 && SpawnFails !in steps && Failures(steps) == 0
                 && |Exec(target, previous, steps).free| == size;
    CleanRunEnds(target, previous, steps);
  }
}
