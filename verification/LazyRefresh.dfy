/**
 The refresh protocol shared by the hotspot, WAN and admin collectors, as a state machine over the
 steps of any number of threads that call `Snapshot` again and again.

 A step is what one thread does between two points where another may run: taking or leaving the
 mutex, one clock reading, the pointer load or store, the assignment of `lastAt`. The data that a
 collector publishes is a parameter: `step` says what a refresh publishes after the previous data and
 the outcome of its commands.
 */
module LazyRefresh {
  import opened Clock
  import opened Results

  datatype Config<!D, !O> = Config(ttl: int, initial: D, step: (D, O) -> D)

  datatype Snap<+D> = Snap(at: Time, data: D)

  /** Where a thread is in `Snapshot`; `entry` is the time at which its call was made. */
  datatype Thread<+D, +O> =
    | Idle
    | Entered(entry: Time)                       // about to take the mutex for the staleness check
    | Checking(entry: Time)                      // holds the mutex
    | Checked(entry: Time, stale: bool)          // holds the mutex
    | Waiting(entry: Time)                       // about to take the mutex for the refresh
    | Rechecking(entry: Time)                    // holds the mutex, as in every state down to Leaving
    | Starting(entry: Time)                      // about to read `now`
    | Started(entry: Time, now: Time)            // about to load the previous snapshot
    | Running(entry: Time, now: Time, prev: Snap<D>)
    | Computed(entry: Time, now: Time, next: Snap<D>, outcome: O)
    | Stored(entry: Time, now: Time)             // pointer stored, `lastAt` not yet assigned
    | Leaving(entry: Time)
    | Loading(entry: Time)                       // about to load the result, without the mutex
  {
    /** Between taking and leaving the mutex. */
    predicate Holds() {
      Checking? || Checked? || Rechecking? || Leaving? || Refreshing()
    }

    /** In the part of `refresh` that follows a failed re-check. */
    predicate Refreshing() {
      Starting? || Open() || Stored?
    }

    /** A refresh start is recorded and nothing is published for it yet. */
    predicate Open() {
      Started? || Running? || Computed?
    }

    /** The call is certain to return a snapshot younger than the time to live. */
    predicate Settled() {
      (Checked? && !stale) || Leaving? || Loading? || Stored?
    }
  }

  /** A completed call: the time it was made and the snapshot it returned. */
  datatype Load<+D> = Load(entry: Time, snap: Snap<D>)

  /** The last four fields are history: no step reads them. */
  datatype State<+D, +O> = State(
    clock: Time, lastAt: Time, owner: Option<nat>, snap: Snap<D>, threads: seq<Thread<D, O>>,
    starts: seq<Time>, outcomes: seq<O>, published: seq<Snap<D>>, loads: seq<Load<D>>)

  /** Time passes, or thread `t` takes its next step; the commands' outcome is used when they finish. */
  datatype Action<+O> = Tick(elapsed: nat) | Run(t: nat, outcome: O)

  predicate ValidConfig<D, O>(c: Config<D, O>) {
    ValidTtl(c.ttl)
  }

  function Init<D, O>(c: Config<D, O>, clock: Time, threads: nat): State<D, O> {
    var snap := Snap(clock, c.initial);
    State(clock, ZERO_TIME, None, snap, seq(threads, _ => Idle), [], [], [snap], [])
  }

  function Goto<D, O>(s: State<D, O>, t: nat, th: Thread<D, O>): State<D, O>
    requires t < |s.threads|
  {
    s.(threads := s.threads[t := th])
  }

  function StepThread<D, O>(c: Config<D, O>, s: State<D, O>, t: nat, o: O): State<D, O>
    requires t < |s.threads|
  {
    match s.threads[t]
    case Idle => Goto(s, t, Entered(s.clock))
    case Entered(e) => if s.owner.None? then Goto(s.(owner := Some(t)), t, Checking(e)) else s
    case Checking(e) => Goto(s, t, Checked(e, Sub(s.clock, s.lastAt) >= c.ttl))
    case Checked(e, stale) => Goto(s.(owner := None), t, if stale then Waiting(e) else Loading(e))
    case Waiting(e) => if s.owner.None? then Goto(s.(owner := Some(t)), t, Rechecking(e)) else s
    case Rechecking(e) => Goto(s, t, if Sub(s.clock, s.lastAt) < c.ttl then Leaving(e) else Starting(e))
    case Starting(e) => Goto(s.(starts := s.starts + [s.clock]), t, Started(e, s.clock))
    case Started(e, now) => Goto(s, t, Running(e, now, s.snap))
    case Running(e, now, prev) => Goto(s, t, Computed(e, now, Snap(now, c.step(prev.data, o)), o))
    case Computed(e, now, next, outcome) =>
      Goto(s.(snap := next, outcomes := s.outcomes + [outcome], published := s.published + [next]),
           t, Stored(e, now))
    case Stored(e, now) => Goto(s.(lastAt := now), t, Leaving(e))
    case Leaving(e) => Goto(s.(owner := None), t, Loading(e))
    case Loading(e) => Goto(s.(loads := s.loads + [Load(e, s.snap)]), t, Idle)
  }

  /** One step of the system; an action of a blocked or missing thread changes nothing. */
  function Apply<D, O>(c: Config<D, O>, s: State<D, O>, a: Action<O>): State<D, O> {
    match a
    case Tick(d) => s.(clock := s.clock + d)
    case Run(t, o) => if t < |s.threads| then StepThread(c, s, t, o) else s
  }

  /** The state after any interleaving of the threads' steps and the passing of time. */
  function Exec<D, O>(c: Config<D, O>, s: State<D, O>, acts: seq<Action<O>>): State<D, O>
    decreases |acts|
  {
    if acts == [] then s else Apply(c, Exec(c, s, acts[..|acts| - 1]), acts[|acts| - 1])
  }

  /** What a collector should be showing after a history of refresh outcomes. */
  function Folded<D, O>(c: Config<D, O>, outcomes: seq<O>): D
    decreases |outcomes|
  {
    if outcomes == [] then c.initial
    else c.step(Folded(c, outcomes[..|outcomes| - 1]), outcomes[|outcomes| - 1])
  }

  lemma FoldedMore<D, O>(c: Config<D, O>, outcomes: seq<O>, o: O)
    ensures Folded(c, outcomes + [o]) == c.step(Folded(c, outcomes), o)
    ensures forall k :: 0 <= k <= |outcomes| ==> (outcomes + [o])[..k] == outcomes[..k]
    ensures outcomes[..|outcomes|] == outcomes && (outcomes + [o])[..|outcomes| + 1] == outcomes + [o]
  {
  }

  // ----- Invariants

  /** The mutex is held by exactly the thread that `owner` names. */
  ghost predicate LockInv<D, O>(s: State<D, O>) {
    && (s.owner.Some? ==> s.owner.value < |s.threads| && s.threads[s.owner.value].Holds())
    && forall t :: 0 <= t < |s.threads| && s.threads[t].Holds() ==> s.owner == Some(t)
  }

  ghost predicate ThreadInv<D, O>(c: Config<D, O>, s: State<D, O>, th: Thread<D, O>) {
    && (th.Idle? || th.entry <= s.clock)
    && (th.Settled() ==> s.snap.at > th.entry - c.ttl)
    && (th.Starting? ==> s.clock >= s.lastAt + c.ttl)
    && (th.Open() ==> s.starts != [] && th.now == s.starts[|s.starts| - 1] && th.entry <= th.now)
    && (th.Open() ==> s.snap.at <= th.now)
    && (th.Running? ==> th.prev == s.snap)
    && (th.Computed? ==> th.next == Snap(th.now, c.step(s.snap.data, th.outcome)))
    && (th.Stored? ==> s.starts != [] && s.snap.at == th.now == s.starts[|s.starts| - 1])
  }

  ghost predicate ThreadsInv<D, O>(c: Config<D, O>, s: State<D, O>) {
    forall t :: 0 <= t < |s.threads| ==> ThreadInv(c, s, s.threads[t])
  }

  /** Whether some thread has recorded a refresh start without having published for it. */
  predicate OpenRefresh<D, O>(s: State<D, O>) {
    s.owner.Some? && s.owner.value < |s.threads| && s.threads[s.owner.value].Open()
  }

  predicate StoredRefresh<D, O>(s: State<D, O>) {
    s.owner.Some? && s.owner.value < |s.threads| && s.threads[s.owner.value].Stored?
  }

  /** The start of the `k`-th refresh counted from the end, or the zero time if there was none. */
  function StartFromEnd(starts: seq<Time>, k: nat): Time {
    if k < |starts| then starts[|starts| - 1 - k] else ZERO_TIME
  }

  ghost predicate ClockInv<D, O>(s: State<D, O>) {
    && ZERO_TIME <= s.lastAt <= s.snap.at <= s.clock
    && s.lastAt == StartFromEnd(s.starts, if OpenRefresh(s) || StoredRefresh(s) then 1 else 0)
    && (s.starts != [] ==> s.starts[|s.starts| - 1] <= s.clock)
  }

  ghost predicate Spaced(ttl: int, starts: seq<Time>) {
    forall i :: 0 <= i < |starts| - 1 ==> starts[i] + ttl <= starts[i + 1]
  }

  ghost predicate HistoryInv<D, O>(c: Config<D, O>, s: State<D, O>) {
    && |s.published| == |s.outcomes| + 1
    && s.snap == s.published[|s.outcomes|]
    && |s.starts| == |s.outcomes| + (if OpenRefresh(s) then 1 else 0)
    && (forall k :: 0 <= k < |s.published| ==> s.published[k].data == Folded(c, s.outcomes[..k]))
    && (forall k :: 0 <= k < |s.outcomes| ==> s.published[k + 1].at == s.starts[k])
  }

  /** Calls returned fresh snapshots, and later calls none older than earlier ones did. */
  ghost predicate LoadsInv<D, O>(c: Config<D, O>, s: State<D, O>) {
    && (forall i :: 0 <= i < |s.loads| ==>
          && s.loads[i].snap.at > s.loads[i].entry - c.ttl
          && s.loads[i].snap in s.published
          && s.loads[i].snap.at <= s.snap.at)
    && (forall i, j :: 0 <= i <= j < |s.loads| ==> s.loads[i].snap.at <= s.loads[j].snap.at)
  }

  ghost predicate Inv<D, O>(c: Config<D, O>, s: State<D, O>) {
    LockInv(s) && ThreadsInv(c, s) && ClockInv(s) && Spaced(c.ttl, s.starts) && HistoryInv(c, s) && LoadsInv(c, s)
  }

  lemma StepKeepsLock<D, O>(c: Config<D, O>, s: State<D, O>, t: nat, o: O)
    requires t < |s.threads| && LockInv(s)
    ensures LockInv(StepThread(c, s, t, o))
  {
  }

  lemma StepKeepsClock<D, O>(c: Config<D, O>, s: State<D, O>, t: nat, o: O)
    requires ValidConfig(c) && t < |s.threads| && LockInv(s) && ThreadsInv(c, s) && ClockInv(s)
    ensures ClockInv(StepThread(c, s, t, o))
    ensures s.snap.at <= StepThread(c, s, t, o).snap.at
  {
    assert ThreadInv(c, s, s.threads[t]);
  }

  lemma RefreshStepKeepsMoved<D, O>(c: Config<D, O>, s: State<D, O>, t: nat, o: O)
    requires t < |s.threads| && ClockInv(s) && ThreadInv(c, s, s.threads[t]) && s.threads[t].Refreshing()
    requires ValidConfig(c)
    ensures var s' := StepThread(c, s, t, o); ThreadInv(c, s', s'.threads[t])
  {
  }

  lemma StepKeepsMoved<D, O>(c: Config<D, O>, s: State<D, O>, t: nat, o: O)
    requires t < |s.threads| && ClockInv(s) && ThreadInv(c, s, s.threads[t])
    requires ValidConfig(c)
    ensures var s' := StepThread(c, s, t, o); ThreadInv(c, s', s'.threads[t])
  {
    if s.threads[t].Refreshing() {
      RefreshStepKeepsMoved(c, s, t, o);
    } else {
      assert StepThread(c, s, t, o).snap == s.snap;
    }
  }

  /** A step of `t` leaves what is known of another thread true. */
  lemma StepKeepsOthers<D, O>(c: Config<D, O>, s: State<D, O>, t: nat, o: O, u: nat)
    requires ValidConfig(c) && t < |s.threads| && u < |s.threads| && u != t && LockInv(s)
    requires ThreadInv(c, s, s.threads[u])
    requires s.snap.at <= StepThread(c, s, t, o).snap.at
    ensures ThreadInv(c, StepThread(c, s, t, o), s.threads[u])
  {
    var th := s.threads[u];
    if th.Holds() {
      assert !s.threads[t].Holds() && s.owner.Some?;
    }
  }

  lemma StepKeepsThreads<D, O>(c: Config<D, O>, s: State<D, O>, t: nat, o: O)
    requires ValidConfig(c) && t < |s.threads| && LockInv(s) && ThreadsInv(c, s) && ClockInv(s)
    ensures ThreadsInv(c, StepThread(c, s, t, o))
  {
    StepKeepsClock(c, s, t, o);
    StepKeepsMoved(c, s, t, o);
    forall u: nat | u < |s.threads| && u != t
      ensures ThreadInv(c, StepThread(c, s, t, o), s.threads[u])
    {
      StepKeepsOthers(c, s, t, o, u);
    }
  }

  lemma StepKeepsSpaced<D, O>(c: Config<D, O>, s: State<D, O>, t: nat, o: O)
    requires ValidConfig(c) && t < |s.threads| && LockInv(s) && ThreadsInv(c, s) && ClockInv(s)
    requires Spaced(c.ttl, s.starts)
    ensures Spaced(c.ttl, StepThread(c, s, t, o).starts)
  {
    assert ThreadInv(c, s, s.threads[t]);
  }

  lemma PublishKeepsHistory<D, O>(c: Config<D, O>, s: State<D, O>, t: nat, o: O)
    requires t < |s.threads| && LockInv(s) && ThreadInv(c, s, s.threads[t]) && HistoryInv(c, s)
    requires s.threads[t].Computed?
    ensures HistoryInv(c, StepThread(c, s, t, o))
  {
    FoldedMore(c, s.outcomes, s.threads[t].outcome);
  }

  lemma StepKeepsHistory<D, O>(c: Config<D, O>, s: State<D, O>, t: nat, o: O)
    requires t < |s.threads| && LockInv(s) && ThreadInv(c, s, s.threads[t]) && HistoryInv(c, s)
    ensures HistoryInv(c, StepThread(c, s, t, o))
  {
    var s' := StepThread(c, s, t, o);
    if s.threads[t].Computed? {
      PublishKeepsHistory(c, s, t, o);
    } else {
      assert s'.published == s.published && s'.outcomes == s.outcomes && s'.snap == s.snap;
      assert OpenRefresh(s') <==> OpenRefresh(s) || s.threads[t].Starting?;
      assert s.starts <= s'.starts;
    }
  }

  lemma StepKeepsLoads<D, O>(c: Config<D, O>, s: State<D, O>, t: nat, o: O)
    requires t < |s.threads| && ThreadInv(c, s, s.threads[t])
    requires s.snap in s.published && LoadsInv(c, s)
    requires s.snap.at <= StepThread(c, s, t, o).snap.at
    ensures LoadsInv(c, StepThread(c, s, t, o))
  {
    var s' := StepThread(c, s, t, o);
    if s.threads[t].Loading? {
      assert s'.published == s.published && s'.snap == s.snap;
    } else {
      assert s'.loads == s.loads;
      assert s.published <= s'.published;
    }
  }

  lemma ApplyKeepsInv<D, O>(c: Config<D, O>, s: State<D, O>, a: Action<O>)
    requires ValidConfig(c) && Inv(c, s)
    ensures Inv(c, Apply(c, s, a))
  {
    match a
    case Tick(d) =>
      assert forall t :: 0 <= t < |s.threads| ==> ThreadInv(c, s, s.threads[t]);
    case Run(t, o) =>
      if t < |s.threads| {
        StepKeepsLock(c, s, t, o);
        StepKeepsClock(c, s, t, o);
        StepKeepsThreads(c, s, t, o);
        StepKeepsSpaced(c, s, t, o);
        assert ThreadInv(c, s, s.threads[t]);
        StepKeepsHistory(c, s, t, o);
        StepKeepsLoads(c, s, t, o);
      }
  }

  /** Every reachable state satisfies the invariant. */
  lemma {:induction false} ExecKeepsInv<D, O>(c: Config<D, O>, clock: Time, threads: nat, acts: seq<Action<O>>)
    requires ValidConfig(c) && clock >= ZERO_TIME
    ensures Inv(c, Exec(c, Init(c, clock, threads), acts))
    decreases |acts|
  {
    if acts != [] {
      var before := acts[..|acts| - 1];
      ExecKeepsInv(c, clock, threads, before);
      ApplyKeepsInv(c, Exec(c, Init(c, clock, threads), before), acts[|acts| - 1]);
    }
  }

  // ----- What callers can rely on, in every run

  /**
   A call returns a snapshot taken less than `ttl` before the call was made, and its data is what the
   reference fold gives for some prefix of the outcome history.
   */
  lemma CallsReturnFresh<D, O>(c: Config<D, O>, clock: Time, threads: nat, acts: seq<Action<O>>, i: nat)
    requires ValidConfig(c) && clock >= ZERO_TIME
    requires i < |Exec(c, Init(c, clock, threads), acts).loads|
    ensures
      var s := Exec(c, Init(c, clock, threads), acts);
      var load := s.loads[i];
      && load.snap.at > load.entry - c.ttl
      && exists k :: 0 <= k <= |s.outcomes| < |s.published| && load.snap == s.published[k] && load.snap.data == Folded(c, s.outcomes[..k])
  {
    ExecKeepsInv(c, clock, threads, acts);
    var s := Exec(c, Init(c, clock, threads), acts);
    var k :| 0 <= k < |s.published| && s.published[k] == s.loads[i].snap;
    assert s.published[k].data == Folded(c, s.outcomes[..k]);
  }

  /** Successive loads, whichever threads make them, never go back in time. */
  lemma LoadsNeverGoBack<D, O>(c: Config<D, O>, clock: Time, threads: nat, acts: seq<Action<O>>, i: nat, j: nat)
    requires ValidConfig(c) && clock >= ZERO_TIME
    requires i <= j < |Exec(c, Init(c, clock, threads), acts).loads|
    ensures
      var s := Exec(c, Init(c, clock, threads), acts);
      s.loads[i].snap.at <= s.loads[j].snap.at <= s.snap.at
  {
    ExecKeepsInv(c, clock, threads, acts);
  }

  /** At most one thread is in the refresh body at any time. */
  lemma RefreshesNeverOverlap<D, O>(c: Config<D, O>, clock: Time, threads: nat, acts: seq<Action<O>>, t: nat, u: nat)
    requires ValidConfig(c) && clock >= ZERO_TIME
    requires var s := Exec(c, Init(c, clock, threads), acts);
      t < |s.threads| && u < |s.threads| && s.threads[t].Refreshing() && s.threads[u].Refreshing()
    ensures t == u
  {
    ExecKeepsInv(c, clock, threads, acts);
  }

  /** Some thread can always take a step: the holder of the mutex, or any thread when there is none. */
  lemma NeverDeadlocks<D, O>(c: Config<D, O>, clock: Time, threads: nat, acts: seq<Action<O>>, o: O) returns (t: nat)
    requires ValidConfig(c) && clock >= ZERO_TIME && Exec(c, Init(c, clock, threads), acts).threads != []
    ensures
      var s := Exec(c, Init(c, clock, threads), acts);
      t < |s.threads| && Apply(c, s, Run(t, o)).threads[t] != s.threads[t]
  {
    ExecKeepsInv(c, clock, threads, acts);
    var s := Exec(c, Init(c, clock, threads), acts);
    t := if s.owner.Some? then s.owner.value else 0;
  }

  /** The current data is the fold of all finished outcomes, and every snapshot carries its refresh's start. */
  lemma PublishedIsFold<D, O>(c: Config<D, O>, clock: Time, threads: nat, acts: seq<Action<O>>)
    requires ValidConfig(c) && clock >= ZERO_TIME
    ensures
      var s := Exec(c, Init(c, clock, threads), acts);
      && s.snap.data == Folded(c, s.outcomes)
      && |s.outcomes| <= |s.starts| <= |s.outcomes| + 1
      && (s.outcomes != [] ==> s.snap.at == s.starts[|s.outcomes| - 1])
  {
    ExecKeepsInv(c, clock, threads, acts);
    var s := Exec(c, Init(c, clock, threads), acts);
    assert s.outcomes[..|s.outcomes|] == s.outcomes;
    assert s.outcomes != [] ==> s.published[|s.outcomes| - 1 + 1].at == s.starts[|s.outcomes| - 1];
  }

  /** The number of refresh starts from `lo` to `hi`, both included. */
  function StartsIn(starts: seq<Time>, lo: Time, hi: Time): nat
    decreases |starts|
  {
    if starts == [] then 0
    else
      var last := starts[|starts| - 1];
      StartsIn(starts[..|starts| - 1], lo, hi) + (if lo <= last <= hi then 1 else 0)
  }

  lemma {:induction false} SpacedCount(ttl: int, starts: seq<Time>, lo: Time, hi: Time)
    requires 0 < ttl && Spaced(ttl, starts)
    ensures StartsIn(starts, lo, hi) > 0 ==>
      starts != [] && (StartsIn(starts, lo, hi) - 1) * ttl <= (if starts[|starts| - 1] < hi then starts[|starts| - 1] else hi) - lo
    decreases |starts|
  {
    if starts != [] {
      var before := starts[..|starts| - 1];
      SpacedCount(ttl, before, lo, hi);
      var n := StartsIn(before, lo, hi);
      if n > 0 {
        assert before[|before| - 1] + ttl <= starts[|before|];
        assert n * ttl == (n - 1) * ttl + ttl;
      }
    }
  }

  lemma MulMono(n: nat, m: nat, d: nat)
    requires n >= m
    ensures n * d >= m * d
  {
  }

  lemma QuotientBound(n: nat, d: nat, w: nat)
    requires 0 < d && n * d <= w
    ensures n <= w / d
  {
    if n > w / d {
      MulMono(n, w / d + 1, d);
    }
  }

  /** A window of length `w` holds at most `w / ttl + 1` starts that are `ttl` apart. */
  lemma SpacedWindow(ttl: int, starts: seq<Time>, lo: Time, w: nat)
    requires 0 < ttl && Spaced(ttl, starts)
    ensures StartsIn(starts, lo, lo + w) <= w / ttl + 1
  {
    SpacedCount(ttl, starts, lo, lo + w);
    var n := StartsIn(starts, lo, lo + w);
    if n > 0 {
      QuotientBound(n - 1, ttl, w);
    }
  }

  /** Starts of consecutive refreshes are at least `ttl` apart, and no window holds more of them than that allows. */
  lemma RefreshesAreSpaced<D, O>(c: Config<D, O>, clock: Time, threads: nat, acts: seq<Action<O>>, lo: Time, w: nat)
    requires ValidConfig(c) && clock >= ZERO_TIME
    ensures
      var starts := Exec(c, Init(c, clock, threads), acts).starts;
      Spaced(c.ttl, starts) && StartsIn(starts, lo, lo + w) <= w / c.ttl + 1
  {
    ExecKeepsInv(c, clock, threads, acts);
    SpacedWindow(c.ttl, Exec(c, Init(c, clock, threads), acts).starts, lo, w);
  }

  /**
   Exactly when the re-check collapses a waiting call: its clock reading is less than `ttl` after the
   start of the latest refresh (after the zero time if there was none).
   */
  lemma RecheckCollapses<D, O>(c: Config<D, O>, clock: Time, threads: nat, acts: seq<Action<O>>, t: nat, o: O)
    requires ValidConfig(c) && clock >= ZERO_TIME
    requires var s := Exec(c, Init(c, clock, threads), acts); t < |s.threads| && s.threads[t].Rechecking?
    ensures
      var s := Exec(c, Init(c, clock, threads), acts);
      Apply(c, s, Run(t, o)).threads[t].Leaving? <==> s.clock < StartFromEnd(s.starts, 0) + c.ttl
  {
    ExecKeepsInv(c, clock, threads, acts);
  }

  lemma ExecOne<D, O>(c: Config<D, O>, s: State<D, O>, acts: seq<Action<O>>, a: Action<O>)
    ensures Exec(c, s, acts + [a]) == Apply(c, Exec(c, s, acts), a)
  {
    assert (acts + [a])[..|acts|] == acts;
  }

  lemma {:induction false} ExecMany<D, O>(c: Config<D, O>, s: State<D, O>, acts: seq<Action<O>>, more: seq<Action<O>>)
    ensures Exec(c, s, acts + more) == Exec(c, Exec(c, s, acts), more)
    decreases |more|
  {
    if more == [] {
      assert acts + more == acts;
    } else {
      var front := more[..|more| - 1];
      ExecMany(c, s, acts, front);
      assert (acts + more)[..|acts + more| - 1] == acts + front;
    }
  }

  /** Thread `t` taking `n` steps with outcome `o`. */
  function Steps<O>(t: nat, o: O, n: nat): seq<Action<O>> {
    seq(n, _ => Run(t, o))
  }

  lemma OneMore<D, O>(c: Config<D, O>, s: State<D, O>, t: nat, o: O, n: nat)
    ensures Exec(c, s, Steps(t, o, n + 1)) == Apply(c, Exec(c, s, Steps(t, o, n)), Run(t, o))
  {
    assert Steps(t, o, n + 1)[..n] == Steps(t, o, n);
  }

  lemma ThenSteps<D, O>(c: Config<D, O>, s: State<D, O>, t: nat, o: O, n: nat, mid: State<D, O>)
    requires Exec(c, s, Steps(t, o, n)) == mid && t < |mid.threads|
    ensures Exec(c, s, Steps(t, o, n + 1)) == StepThread(c, mid, t, o)
  {
    OneMore(c, s, t, o, n);
  }

  lemma OneStep<D, O>(c: Config<D, O>, s: State<D, O>, t: nat, o: O)
    requires t < |s.threads|
    ensures Exec(c, s, Steps(t, o, 1)) == StepThread(c, s, t, o)
  {
    ThenSteps(c, s, t, o, 0, s);
  }

  lemma GotoTwice<D, O>(s: State<D, O>, t: nat, first: Thread<D, O>, second: Thread<D, O>)
    requires t < |s.threads|
    ensures Goto(Goto(s, t, first), t, second) == Goto(s, t, second)
  {
  }

  lemma FindsStale<D, O>(c: Config<D, O>, s: State<D, O>, t: nat, o: O)
    requires ValidConfig(c) && t < |s.threads| && s.owner == None && s.threads[t] == Idle
    requires s.clock >= s.lastAt + c.ttl
    ensures Exec(c, s, Steps(t, o, 4)) == Goto(s, t, Waiting(s.clock))
  {
    var locked := s.(owner := Some(t));
    OneStep(c, s, t, o);
    ThenSteps(c, s, t, o, 1, Goto(s, t, Entered(s.clock)));
    GotoTwice(locked, t, Entered(s.clock), Checking(s.clock));
    ThenSteps(c, s, t, o, 2, Goto(locked, t, Checking(s.clock)));
    GotoTwice(locked, t, Checking(s.clock), Checked(s.clock, true));
    ThenSteps(c, s, t, o, 3, Goto(locked, t, Checked(s.clock, true)));
    GotoTwice(s, t, Checked(s.clock, true), Waiting(s.clock));
  }

  lemma StartsRefresh<D, O>(c: Config<D, O>, s: State<D, O>, t: nat, o: O)
    requires ValidConfig(c) && t < |s.threads| && s.owner == None && s.threads[t].Waiting?
    requires s.clock >= s.lastAt + c.ttl
    ensures Exec(c, s, Steps(t, o, 3)) ==
      Goto(s.(owner := Some(t), starts := s.starts + [s.clock]), t, Started(s.threads[t].entry, s.clock))
  {
    var e := s.threads[t].entry;
    var locked := s.(owner := Some(t));
    OneStep(c, s, t, o);
    ThenSteps(c, s, t, o, 1, Goto(locked, t, Rechecking(e)));
    GotoTwice(locked, t, Rechecking(e), Starting(e));
    ThenSteps(c, s, t, o, 2, Goto(locked, t, Starting(e)));
    GotoTwice(locked.(starts := s.starts + [s.clock]), t, Starting(e), Started(e, s.clock));
  }

  lemma Publishes<D, O>(c: Config<D, O>, s: State<D, O>, t: nat, o: O)
    requires t < |s.threads| && s.threads[t].Started?
    ensures
      var s' := Exec(c, s, Steps(t, o, 3));
      && s'.threads == s.threads[t := Stored(s.threads[t].entry, s.threads[t].now)]
      && s'.owner == s.owner && s'.starts == s.starts && s'.clock == s.clock
  {
    var Started(e, now) := s.threads[t];
    var next := Snap(now, c.step(s.snap.data, o));
    OneStep(c, s, t, o);
    ThenSteps(c, s, t, o, 1, Goto(s, t, Running(e, now, s.snap)));
    GotoTwice(s, t, Running(e, now, s.snap), Computed(e, now, next, o));
    ThenSteps(c, s, t, o, 2, Goto(s, t, Computed(e, now, next, o)));
  }

  lemma FinishesRefresh<D, O>(c: Config<D, O>, s: State<D, O>, t: nat, o: O)
    requires t < |s.threads| && s.threads[t].Started?
    ensures
      var s' := Exec(c, s, Steps(t, o, 5));
      && s'.threads == s.threads[t := Loading(s.threads[t].entry)]
      && s'.owner == None && s'.lastAt == s.threads[t].now && s'.starts == s.starts && s'.clock == s.clock
  {
    Publishes(c, s, t, o);
    OneMore(c, s, t, o, 3); OneMore(c, s, t, o, 4);
  }

  lemma Queue<D, O>(c: Config<D, O>, s: State<D, O>, acts: seq<Action<O>>, more: seq<Action<O>>) returns (all: seq<Action<O>>)
    ensures Exec(c, s, all) == Exec(c, Exec(c, s, acts), more)
  {
    ExecMany(c, s, acts, more);
    all := acts + more;
  }

  lemma BothWait<D, O>(c: Config<D, O>, clock: Time, o: O) returns (acts: seq<Action<O>>)
    requires ValidConfig(c) && clock >= c.ttl
    ensures Exec(c, Init(c, clock, 2), acts) == Init(c, clock, 2).(threads := [Waiting(clock), Waiting(clock)])
  {
    var s := Init(c, clock, 2);
    FindsStale(c, s, 0, o);
    var s1 := Goto(s, 0, Waiting(clock));
    FindsStale(c, s1, 1, o);
    acts := Queue(c, s, Steps(0, o, 4), Steps(1, o, 4));
  }

  /** One of two waiting threads refreshes and needs `ttl` for it. */
  lemma FirstIsSlow<D, O>(c: Config<D, O>, clock: Time, o: O) returns (acts: seq<Action<O>>)
    requires ValidConfig(c) && clock >= c.ttl
    ensures
      var s := Exec(c, Init(c, clock, 2), acts);
      && s.threads == [Loading(clock), Waiting(clock)]
      && s.starts == [clock] && s.lastAt == clock && s.clock == clock + c.ttl && s.owner == None
  {
    var s := Init(c, clock, 2);
    acts := BothWait(c, clock, o);
    StartsRefresh(c, Exec(c, s, acts), 0, o);
    acts := Queue(c, s, acts, Steps(0, o, 3));
    ExecOne(c, s, acts, Tick(c.ttl));
    acts := acts + [Tick(c.ttl)];
    FinishesRefresh(c, Exec(c, s, acts), 0, o);
    acts := Queue(c, s, acts, Steps(0, o, 5));
  }

  /**
   The re-check does not collapse every pair of concurrent requests: whatever the configuration, two
   calls made at the same instant can both refresh, when the first takes `ttl` to finish.
   */
  lemma SlowRefreshRunsAgain<D, O>(c: Config<D, O>, clock: Time, o: O) returns (acts: seq<Action<O>>)
    requires ValidConfig(c) && clock >= c.ttl
    ensures
      var s := Exec(c, Init(c, clock, 2), acts);
      && s.threads == [Loading(clock), Started(clock, clock + c.ttl)]
      && s.starts == [clock, clock + c.ttl]
  {
    var s := Init(c, clock, 2);
    acts := FirstIsSlow(c, clock, o);
    StartsRefresh(c, Exec(c, s, acts), 1, o);
    acts := Queue(c, s, acts, Steps(1, o, 3));
  }
}
