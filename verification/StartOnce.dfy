/** The double-checked start shared by the lifespans of the MCP applications and by the Temporal
    client: callers look in a table, take one lock, look again, start what is missing, wait for it
    and record it. The steps of any number of callers interleave freely. */
module StartOnce {
  import opened FlowGraph

  /** A lifespan is a task of its own: one whose startup fails never sets its event, so its starter waits for
      ever, and one whose starter is cancelled goes on. A connection is awaited by its starter itself: one
      that fails raises there, which gives the lock back, and one whose starter is cancelled is lost. */
  datatype Mode = Lifespan | Connect

  /** A cancelled caller remembers the task it was waiting for, if any. */
  datatype Pc =
    | Entering | Waiting | Checking | Awaiting(task: nat) | Leaving | Returned(task: nat) | Raised
    | Cancelled(abandoned: Option<nat>)

  /** `created[t]` is what task t was started for. */
  datatype State = State(mode: Mode, apps: seq<nat>, pcs: seq<Pc>, lock: Option<nat>, tasks: map<nat, nat>,
                         created: seq<nat>, ready: set<nat>, failed: set<nat>)

  datatype Action = Check(c: nat) | Acquire(c: nat) | Recheck(c: nat) | Store(c: nat) | Release(c: nat) | Raise(c: nat)
                  | Cancel(c: nat) | BecomeReady(t: nat) | Fail(t: nat)

  function Initial(mode: Mode, apps: seq<nat>): State {
    State(mode, apps, seq(|apps|, _ => Entering), None, map[], [], {}, {})
  }

  predicate At(s: State, c: nat, pc: Pc) { c < |s.pcs| == |s.apps| && s.pcs[c] == pc }

  predicate AtAwaiting(s: State, c: nat, done: set<nat>) {
    c < |s.pcs| == |s.apps| && s.pcs[c].Awaiting? && s.pcs[c].task in done
  }

  predicate Pending(s: State, t: nat) { t < |s.created| && t !in s.ready && t !in s.failed }

  predicate Finished(pc: Pc) { pc.Returned? || pc.Raised? || pc.Cancelled? }

  /** The caller holds the lock; leaving its block, even by cancellation, gives it back. */
  predicate Holding(pc: Pc) { pc.Checking? || pc.Awaiting? || pc.Leaving? }

  predicate Enabled(s: State, a: Action) {
    match a
    case Check(c) => At(s, c, Entering)
    case Acquire(c) => At(s, c, Waiting) && s.lock.None?
    case Recheck(c) => At(s, c, Checking)
    case Store(c) => AtAwaiting(s, c, s.ready)
    case Release(c) => At(s, c, Leaving) && s.apps[c] in s.tasks
    case Raise(c) => s.mode.Connect? && AtAwaiting(s, c, s.failed)
    case Cancel(c) => c < |s.pcs| == |s.apps| && !Finished(s.pcs[c])
    case BecomeReady(t) => Pending(s, t)
    case Fail(t) => Pending(s, t)
  }

  function Apply(s: State, a: Action): (r: State)
    requires Enabled(s, a)
    ensures r.mode == s.mode && r.apps == s.apps && |r.pcs| == |s.pcs|
  {
    match a
    case Check(c) =>
      s.(pcs := s.pcs[c := if s.apps[c] in s.tasks then Returned(s.tasks[s.apps[c]]) else Waiting])
    case Acquire(c) => s.(pcs := s.pcs[c := Checking], lock := Some(c))
    case Recheck(c) =>
      if s.apps[c] in s.tasks then s.(pcs := s.pcs[c := Leaving])
      else s.(pcs := s.pcs[c := Awaiting(|s.created|)], created := s.created + [s.apps[c]])
    case Store(c) => s.(pcs := s.pcs[c := Leaving], tasks := s.tasks[s.apps[c] := s.pcs[c].task])
    case Release(c) => s.(pcs := s.pcs[c := Returned(s.tasks[s.apps[c]])], lock := None)
    case Raise(c) => s.(pcs := s.pcs[c := Raised], lock := None)
    case Cancel(c) =>
      var lost := if s.mode.Connect? && s.pcs[c].Awaiting? then {s.pcs[c].task} else {};
      s.(pcs := s.pcs[c := Cancelled(if s.pcs[c].Awaiting? then Some(s.pcs[c].task) else None)],
         lock := if Holding(s.pcs[c]) then None else s.lock, ready := s.ready - lost, failed := s.failed + lost)
    case BecomeReady(t) => s.(ready := s.ready + {t})
    case Fail(t) => s.(failed := s.failed + {t})
  }

  predicate Possible(s: State, run: seq<Action>)
    decreases |run|
  {
    run == [] || (Enabled(s, run[0]) && Possible(Apply(s, run[0]), run[1..]))
  }

  function Run(s: State, run: seq<Action>): State
    requires Possible(s, run)
    decreases |run|
  {
    if run == [] then s else Run(Apply(s, run[0]), run[1..])
  }

  // ----- What every step keeps -----

  ghost predicate LockHeld(s: State) {
    && |s.pcs| == |s.apps|
    && (s.lock.Some? ==> s.lock.value < |s.pcs|)
    && forall c :: 0 <= c < |s.pcs| ==> (Holding(s.pcs[c]) <==> s.lock == Some(c))
  }

  ghost predicate CallerOk(s: State, c: nat)
    requires c < |s.pcs| == |s.apps|
  {
    match s.pcs[c]
    case Awaiting(t) => t < |s.created| && s.created[t] == s.apps[c] && s.apps[c] !in s.tasks
    case Leaving => s.apps[c] in s.tasks
    case Returned(t) => s.apps[c] in s.tasks && s.tasks[s.apps[c]] == t
    case Cancelled(abandoned) => abandoned.Some? ==> abandoned.value < |s.created|
    case _ => true
  }

  ghost predicate Recorded(s: State, k: nat)
    requires k in s.tasks
  {
    s.tasks[k] < |s.created| && s.created[s.tasks[k]] == k && s.tasks[k] in s.ready
  }

  ghost predicate Awaited(s: State, t: nat) {
    s.lock.Some? && s.lock.value < |s.pcs| && s.pcs[s.lock.value] == Awaiting(t)
  }

  /** The caller that started the task was cancelled while it waited for it. */
  ghost predicate Abandoned(s: State, t: nat) { exists c :: 0 <= c < |s.pcs| && s.pcs[c] == Cancelled(Some(t)) }

  /** A task is recorded, or waited for by the holder of the lock, or an abandoned lifespan, or a lost
      connection. */
  ghost predicate TaskOk(s: State, t: nat)
    requires t < |s.created|
  {
    || (s.created[t] in s.tasks && s.tasks[s.created[t]] == t)
    || Awaited(s, t)
    || (if s.mode.Lifespan? then Abandoned(s, t) else t in s.failed)
  }

  ghost predicate Ok(s: State) {
    && LockHeld(s)
    && (forall c :: 0 <= c < |s.pcs| ==> CallerOk(s, c))
    && (forall k :: k in s.tasks ==> Recorded(s, k))
    && (forall t :: 0 <= t < |s.created| ==> TaskOk(s, t))
    && s.ready !! s.failed
    && (forall t :: t in s.ready || t in s.failed ==> t < |s.created|)
  }

  predicate ByCaller(a: Action) { !a.BecomeReady? && !a.Fail? }

  lemma LockKept(s: State, a: Action)
    requires Ok(s) && Enabled(s, a)
    ensures LockHeld(Apply(s, a))
  {
    hide CallerOk, Recorded, TaskOk;
  }

  lemma CallersKept(s: State, a: Action, c: nat)
    requires Ok(s) && Enabled(s, a) && c < |s.pcs|
    ensures CallerOk(Apply(s, a), c)
  {
    hide Recorded, TaskOk;
    assert CallerOk(s, c);
    if ByCaller(a) { assert CallerOk(s, a.c) && (Holding(s.pcs[a.c]) <==> s.lock == Some(a.c)); }
    assert Holding(s.pcs[c]) <==> s.lock == Some(c);
  }

  lemma RecordsKept(s: State, a: Action, k: nat)
    requires Ok(s) && Enabled(s, a) && k in Apply(s, a).tasks
    ensures Recorded(Apply(s, a), k)
  {
    hide TaskOk, LockHeld;
    if a.Store? || a.Cancel? { assert CallerOk(s, a.c); }
    assert k in s.tasks ==> Recorded(s, k);
  }

  lemma StaysAbandoned(s: State, a: Action, t: nat)
    requires Enabled(s, a)
    ensures Abandoned(s, t) ==> Abandoned(Apply(s, a), t)
    ensures a.Cancel? && s.pcs[a.c] == Awaiting(t) ==> Abandoned(Apply(s, a), t)
  {
    if c :| 0 <= c < |s.pcs| && s.pcs[c] == Cancelled(Some(t)) { assert Apply(s, a).pcs[c] == Cancelled(Some(t)); }
    if a.Cancel? && s.pcs[a.c] == Awaiting(t) { assert Apply(s, a).pcs[a.c] == Cancelled(Some(t)); }
  }

  lemma TasksKept(s: State, a: Action, t: nat)
    requires Ok(s) && Enabled(s, a) && t < |Apply(s, a).created|
    ensures TaskOk(Apply(s, a), t)
  {
    StaysAbandoned(s, a, t);
    hide Abandoned;
    assert t < |s.created| ==> TaskOk(s, t);
    if ByCaller(a) { assert CallerOk(s, a.c) && (Holding(s.pcs[a.c]) <==> s.lock == Some(a.c)); }
  }

  lemma StepKeeps(s: State, a: Action)
    requires Ok(s) && Enabled(s, a)
    ensures Ok(Apply(s, a))
  {
    assert a.Cancel? && s.pcs[a.c].Awaiting? ==> s.pcs[a.c].task < |s.created| by {
      if a.Cancel? { assert CallerOk(s, a.c); }
    }
    hide CallerOk, Recorded, TaskOk;
    var r := Apply(s, a);
    LockKept(s, a);
    forall c | 0 <= c < |r.pcs| ensures CallerOk(r, c) { CallersKept(s, a, c); }
    forall k | k in r.tasks ensures Recorded(r, k) { RecordsKept(s, a, k); }
    forall t | 0 <= t < |r.created| ensures TaskOk(r, t) { TasksKept(s, a, t); }
  }

  lemma {:induction false} RunKeeps(s: State, run: seq<Action>)
    requires Ok(s) && Possible(s, run)
    ensures Ok(Run(s, run))
    decreases |run|
  {
    if run != [] {
      StepKeeps(s, run[0]);
      RunKeeps(Apply(s, run[0]), run[1..]);
    }
  }

  // ----- Safety -----

  ghost predicate GivenUp(s: State, t: nat) { t in s.failed || Abandoned(s, t) }

  /** At most one task that has neither failed nor been abandoned is ever started for an application. */
  ghost predicate StartedOnce(s: State) {
    forall i, j :: 0 <= i < j < |s.created| && s.created[i] == s.created[j] ==> GivenUp(s, i) || GivenUp(s, j)
  }

  /** No caller returns before a task for its application is ready, and all that return for one
      application see the same task. */
  ghost predicate ReturnedReady(s: State) {
    && |s.pcs| == |s.apps|
    && (forall c :: 0 <= c < |s.pcs| && s.pcs[c].Returned? ==>
          var t := s.pcs[c].task; t in s.ready && t < |s.created| && s.created[t] == s.apps[c])
    && (forall c, d ::
          0 <= c < |s.pcs| && 0 <= d < |s.pcs| && s.pcs[c].Returned? && s.pcs[d].Returned? && s.apps[c] == s.apps[d]
          ==> s.pcs[c].task == s.pcs[d].task)
  }

  lemma OkIsSafe(s: State)
    requires Ok(s)
    ensures StartedOnce(s) && ReturnedReady(s)
  {
    hide Abandoned;
    forall i, j | 0 <= i < j < |s.created| && s.created[i] == s.created[j] ensures GivenUp(s, i) || GivenUp(s, j) {
      assert TaskOk(s, i) && TaskOk(s, j);
      assert s.lock.Some? ==> CallerOk(s, s.lock.value);
    }
    forall c | 0 <= c < |s.pcs| && s.pcs[c].Returned?
      ensures s.apps[c] in s.tasks && s.tasks[s.apps[c]] == s.pcs[c].task && Recorded(s, s.apps[c])
    {
      assert CallerOk(s, c);
    }
  }

  /** Under any number of callers and any schedule. */
  lemma EveryScheduleStartsOnce(mode: Mode, apps: seq<nat>, run: seq<Action>)
    requires Possible(Initial(mode, apps), run)
    ensures StartedOnce(Run(Initial(mode, apps), run)) && ReturnedReady(Run(Initial(mode, apps), run))
  {
    RunKeeps(Initial(mode, apps), run);
    OkIsSafe(Run(Initial(mode, apps), run));
  }

  ghost predicate NobodyCancelled(s: State) { forall c :: 0 <= c < |s.pcs| ==> !s.pcs[c].Cancelled? }

  lemma {:induction false} UncancelledRun(s: State, run: seq<Action>)
    requires Possible(s, run) && NobodyCancelled(s) && forall a :: a in run ==> !a.Cancel?
    ensures NobodyCancelled(Run(s, run))
    decreases |run|
  {
    if run != [] {
      assert run[0] in run;
      UncancelledRun(Apply(s, run[0]), run[1..]);
    }
  }

  /** Without cancellations, at most one task that does not fail is started for an application. */
  lemma UncancelledStartsOnce(mode: Mode, apps: seq<nat>, run: seq<Action>)
    requires Possible(Initial(mode, apps), run) && forall a :: a in run ==> !a.Cancel?
    ensures var s := Run(Initial(mode, apps), run);
            forall i, j :: 0 <= i < j < |s.created| && s.created[i] == s.created[j] ==> i in s.failed || j in s.failed
  {
    EveryScheduleStartsOnce(mode, apps, run);
    UncancelledRun(Initial(mode, apps), run);
    var s := Run(Initial(mode, apps), run);
    forall i, j | 0 <= i < j < |s.created| && s.created[i] == s.created[j] ensures i in s.failed || j in s.failed {
      assert GivenUp(s, i) || GivenUp(s, j);
    }
  }

  /** Of the connections, at most one is not lost, whoever is cancelled. */
  lemma OneConnection(apps: seq<nat>, run: seq<Action>)
    requires Possible(Initial(Connect, apps), run)
    ensures var s := Run(Initial(Connect, apps), run);
            forall i, j :: 0 <= i < j < |s.created| && s.created[i] == s.created[j] ==> i in s.failed || j in s.failed
  {
    RunKeeps(Initial(Connect, apps), run);
    var s := Run(Initial(Connect, apps), run);
    RunMode(Initial(Connect, apps), run);
    forall i, j | 0 <= i < j < |s.created| && s.created[i] == s.created[j] ensures i in s.failed || j in s.failed {
      assert TaskOk(s, i) && TaskOk(s, j);
      assert s.lock.Some? ==> CallerOk(s, s.lock.value);
    }
  }

  lemma {:induction false} RunMode(s: State, run: seq<Action>)
    requires Possible(s, run)
    ensures Run(s, run).mode == s.mode
    decreases |run|
  {
    hide Apply, Enabled;
    if run != [] { RunMode(Apply(s, run[0]), run[1..]); }
  }

  /** The first caller starts a lifespan and is cancelled waiting for it. */
  lemma FirstIsCancelled(apps: seq<nat>, c: nat) returns (s: State, run: seq<Action>)
    requires c < |apps|
    ensures Possible(Initial(Lifespan, apps), run) && Run(Initial(Lifespan, apps), run) == s
    ensures s == Initial(Lifespan, apps).(pcs := Initial(Lifespan, apps).pcs[c := Cancelled(Some(0))], created := [apps[c]])
  {
    var s0 := Initial(Lifespan, apps);
    var s1 := Apply(s0, Check(c));
    var s2 := Apply(s1, Acquire(c));
    var s3 := Apply(s2, Recheck(c));
    s := Apply(s3, Cancel(c));
    assert s.pcs == s0.pcs[c := Cancelled(Some(0))] && s.created == [apps[c]];
    hide Apply, Enabled;
    run := Before(s3, Cancel(c), s, []);
    run := Before(s2, Recheck(c), s, run);
    run := Before(s1, Acquire(c), s, run);
    run := Before(s0, Check(c), s, run);
  }

  /** The second caller starts another, and both become ready. */
  lemma SecondStarts(s: State, d: nat) returns (end: State, run: seq<Action>)
    requires d < |s.pcs| == |s.apps| && s.pcs[d].Entering? && s.lock.None? && s.tasks == map[]
    requires s.created == [s.apps[d]] && s.ready == {} && s.failed == {}
    ensures Possible(s, run) && Run(s, run) == end
    ensures end.created == [s.apps[d], s.apps[d]] && end.ready == {0, 1} && end.failed == {}
  {
    var s1 := Apply(s, Check(d));
    var s2 := Apply(s1, Acquire(d));
    var s3 := Apply(s2, Recheck(d));
    var s4 := Apply(s3, BecomeReady(0));
    end := Apply(s4, BecomeReady(1));
    hide Apply, Enabled;
    run := Before(s4, BecomeReady(1), end, []);
    run := Before(s3, BecomeReady(0), end, run);
    run := Before(s2, Recheck(d), end, run);
    run := Before(s1, Acquire(d), end, run);
    run := Before(s, Check(d), end, run);
  }

  lemma {:induction false} RunsJoin(s: State, a: seq<Action>, b: seq<Action>)
    requires Possible(s, a) && Possible(Run(s, a), b)
    ensures Possible(s, a + b) && Run(s, a + b) == Run(Run(s, a), b)
    decreases |a|
  {
    hide Apply, Enabled;
    if a == [] {
      assert a + b == b;
    } else {
      assert (a + b)[1..] == a[1..] + b;
      RunsJoin(Apply(s, a[0]), a[1..], b);
    }
  }

  /** Cancelling a caller that waits for a lifespan gives the lock back with its task unrecorded: any second
      caller for the same application then starts a second one, and both become ready. */
  lemma CancelledStartsTwice(apps: seq<nat>, c: nat, d: nat) returns (run: seq<Action>)
    requires c < |apps| && d < |apps| && c != d && apps[c] == apps[d]
    ensures Possible(Initial(Lifespan, apps), run)
    ensures var s := Run(Initial(Lifespan, apps), run); s.created == [apps[c], apps[c]] && s.ready == {0, 1} && s.failed == {}
  {
    var s, first := FirstIsCancelled(apps, c);
    var end, second := SecondStarts(s, d);
    hide Possible, Run;
    RunsJoin(Initial(Lifespan, apps), first, second);
    run := first + second;
  }

  lemma Before(s: State, a: Action, end: State, rest: seq<Action>) returns (run: seq<Action>)
    requires Enabled(s, a) && Possible(Apply(s, a), rest) && Run(Apply(s, a), rest) == end
    ensures run == [a] + rest && Possible(s, run) && Run(s, run) == end
  {
    run := [a] + rest;
    assert run[1..] == rest;
  }

  // ----- Progress -----

  /** A lifespan failed to start, and the caller that started it still waits, holding the lock. */
  ghost predicate Stuck(s: State) {
    s.mode.Lifespan? && s.lock.Some? && s.lock.value < |s.pcs| && s.pcs[s.lock.value].Awaiting? &&
    s.pcs[s.lock.value].task in s.failed
  }

  /** Unless a failed start holds the lock, some step is possible until every caller has finished. */
  lemma SomeStepIsPossible(s: State) returns (a: Action)
    requires Ok(s) && !Stuck(s)
    requires exists c :: 0 <= c < |s.pcs| && !Finished(s.pcs[c])
    ensures Enabled(s, a) && !a.Fail? && !a.Cancel?
  {
    var c :| 0 <= c < |s.pcs| && !Finished(s.pcs[c]);
    if s.pcs[c].Entering? {
      a := Check(c);
    } else if s.lock.None? {
      assert !Holding(s.pcs[c]);
      a := Acquire(c);
    } else {
      var h := s.lock.value;
      assert Holding(s.pcs[h]) && CallerOk(s, h);
      match s.pcs[h]
      case Checking => a := Recheck(h);
      case Leaving => a := Release(h);
      case Awaiting(t) =>
        a := if t in s.ready then Store(h) else if t in s.failed then Raise(h) else BecomeReady(t);
    }
  }

  function Rank(s: State, pc: Pc): nat {
    match pc
    case Entering => 6
    case Waiting => 5
    case Checking => 4
    case Awaiting(t) => if Pending(s, t) then 3 else 2
    case Leaving => 1
    case Returned(_) => 0
    case Raised => 0
    case Cancelled(abandoned) => if abandoned.Some? && Pending(s, abandoned.value) then 1 else 0
  }

  function Ranks(s: State): seq<nat> { seq(|s.pcs|, c requires 0 <= c < |s.pcs| => Rank(s, s.pcs[c])) }

  function Sum(ranks: seq<nat>): nat { if ranks == [] then 0 else ranks[0] + Sum(ranks[1..]) }

  lemma {:induction false} SumFalls(a: seq<nat>, b: seq<nat>)
    requires |a| == |b| && forall i :: 0 <= i < |a| ==> b[i] <= a[i]
    ensures Sum(b) <= Sum(a)
    decreases |a|
  {
    if a != [] { SumFalls(a[1..], b[1..]); }
  }

  lemma {:induction false} SumDrops(a: seq<nat>, b: seq<nat>, c: nat)
    requires |a| == |b| && c < |a| && b[c] < a[c]
    requires forall i :: 0 <= i < |a| ==> b[i] <= a[i]
    ensures Sum(b) < Sum(a)
    decreases c
  {
    if c == 0 {
      SumFalls(a[1..], b[1..]);
    } else {
      SumDrops(a[1..], b[1..], c - 1);
    }
  }

  lemma {:induction false} SumAll(n: nat, ranks: seq<nat>)
    requires |ranks| == n && forall i :: 0 <= i < n ==> ranks[i] == 6
    ensures Sum(ranks) == 6 * n
    decreases n
  {
    if n > 0 { SumAll(n - 1, ranks[1..]); }
  }

  /** No step raises a rank. */
  lemma RankFalls(s: State, a: Action, i: nat)
    requires Ok(s) && Enabled(s, a) && i < |s.pcs|
    ensures Rank(Apply(s, a), Apply(s, a).pcs[i]) <= Rank(s, s.pcs[i])
    ensures ByCaller(a) && i == a.c ==> Rank(Apply(s, a), Apply(s, a).pcs[i]) < Rank(s, s.pcs[i])
  {
    hide TaskOk, Recorded;
    assert CallerOk(s, i);
  }

  /** A task that settles has a caller waiting for it, or one that was cancelled waiting. */
  lemma SomeoneWaits(s: State, t: nat) returns (c: nat)
    requires Ok(s) && Pending(s, t)
    ensures c < |s.pcs| && (s.pcs[c] == Awaiting(t) || s.pcs[c] == Cancelled(Some(t)))
  {
    assert TaskOk(s, t);
    assert s.created[t] in s.tasks ==> Recorded(s, s.created[t]);
    if Awaited(s, t) {
      c := s.lock.value;
    } else {
      c :| 0 <= c < |s.pcs| && s.pcs[c] == Cancelled(Some(t));
    }
  }

  lemma StepDescends(s: State, a: Action)
    requires Ok(s) && Enabled(s, a)
    ensures Sum(Ranks(Apply(s, a))) < Sum(Ranks(s))
  {
    var r := Apply(s, a);
    var c: nat;
    if ByCaller(a) {
      c := a.c;
      RankFalls(s, a, c);
    } else {
      c := SomeoneWaits(s, a.t);
      assert Rank(r, r.pcs[c]) < Rank(s, s.pcs[c]);
    }
    forall i | 0 <= i < |s.pcs| ensures Rank(r, r.pcs[i]) <= Rank(s, s.pcs[i]) { RankFalls(s, a, i); }
    hide Ok, Rank, Apply, Enabled;
    SumDrops(Ranks(s), Ranks(r), c);
  }

  lemma {:induction false} RunDescends(s: State, run: seq<Action>)
    requires Ok(s) && Possible(s, run)
    ensures |run| + Sum(Ranks(Run(s, run))) <= Sum(Ranks(s))
    decreases |run|
  {
    if run != [] {
      StepKeeps(s, run[0]);
      StepDescends(s, run[0]);
      RunDescends(Apply(s, run[0]), run[1..]);
    }
  }

  /** A failed lifespan that nobody gave up on holds the lock. */
  lemma FailedIsStuck(s: State, t: nat)
    requires Ok(s) && s.mode.Lifespan? && t in s.failed && !Abandoned(s, t)
    ensures Stuck(s)
  {
    assert TaskOk(s, t);
    assert s.created[t] in s.tasks ==> Recorded(s, s.created[t]);
  }

  /** Nothing can happen but that a caller is cancelled. */
  ghost predicate Halted(s: State) { forall a :: Enabled(s, a) ==> a.Cancel? }

  /** Every schedule has at most six steps a caller; one that has halted has brought every caller to its
      end exactly when no failed start holds the lock. */
  lemma EveryScheduleFinishes(mode: Mode, apps: seq<nat>, run: seq<Action>)
    requires Possible(Initial(mode, apps), run)
    ensures |run| <= 6 * |apps|
    ensures var s := Run(Initial(mode, apps), run);
            Halted(s) ==> ((forall c :: 0 <= c < |s.pcs| ==> Finished(s.pcs[c])) <==> !Stuck(s))
  {
    hide Enabled;
    var start := Initial(mode, apps);
    var s := Run(start, run);
    RunKeeps(start, run);
    RunDescends(start, run);
    SumAll(|apps|, Ranks(start));
    if !Stuck(s) && exists c :: 0 <= c < |s.pcs| && !Finished(s.pcs[c]) {
      var a := SomeStepIsPossible(s);
    }
  }

  // ----- A lifespan that fails to start -----

  lemma StepStaysStuck(s: State, a: Action)
    requires Ok(s) && Stuck(s) && Enabled(s, a) && a != Cancel(s.lock.value)
    ensures Stuck(Apply(s, a)) && Apply(s, a).tasks == s.tasks && Apply(s, a).lock == s.lock
  {
    var h := s.lock.value;
    assert forall c :: 0 <= c < |s.pcs| && Holding(s.pcs[c]) ==> c == h;
  }

  /** Once a lifespan has failed to start, and until its waiting caller is cancelled, no schedule starts
      or returns anything for an application that is not already running. */
  lemma {:induction false} FailedStartBlocksForEver(s: State, run: seq<Action>)
    requires Ok(s) && Stuck(s) && Possible(s, run) && Cancel(s.lock.value) !in run
    ensures Stuck(Run(s, run)) && Run(s, run).tasks == s.tasks
    ensures ReturnedReady(Run(s, run))
    ensures var r := Run(s, run);
            forall c :: 0 <= c < |r.pcs| && r.apps[c] !in s.tasks ==> !r.pcs[c].Returned?
    decreases |run|
  {
    OkIsSafe(s);
    if run == [] {
      forall c | 0 <= c < |s.pcs| && s.apps[c] !in s.tasks ensures !s.pcs[c].Returned? { assert CallerOk(s, c); }
    } else {
      assert run[0] in run;
      StepKeeps(s, run[0]);
      StepStaysStuck(s, run[0]);
      FailedStartBlocksForEver(Apply(s, run[0]), run[1..]);
    }
  }
}
