/** What the durable engine reads is what its last step saved only if dead attempts of `execute_node`
    and the cache in front of the graph state cannot be seen. When they cannot is stated here. */
module FlowRetries {
  import opened FlowGraph
  import opened GraphCompiler
  import opened FlowActivities
  import opened FlowRuntime
  import W = FlowWorkflow
  import FlowEquivalence

  // ----- Attempts that die after saving -----

  /** An executor that answers on the state its own answer left as it did before. */
  ghost predicate Settles(w: World, plan: Plan) {
    forall k, node, g :: SettlesOn(w, plan, k, node, g)
  }

  /** The context the node of a plan is executed in. */
  function Given(plan: Plan, node: string, g: GraphState): Context
    requires node in plan.nodes
  {
    var ctx := Reload(g, node);
    ctx.(metadata := ctx.metadata[CURRENT_TYPE := plan.nodes[node]])
  }

  /** What an answered step saves. */
  function SavedBy(ctx: Context, a: NodeAnswer): GraphState
    requires a.Answer?
  {
    GraphState(ctx.node, NewState(ctx, a), if a.memory.Some? then a.memory.value else ctx.memory, ctx.metadata)
  }

  ghost predicate SettlesOn(w: World, plan: Plan, k: nat, node: string, g: GraphState) {
    node in plan.nodes && w.execute(k, Given(plan, node, g)).Answer? ==>
      var a := w.execute(k, Given(plan, node, g));
      w.execute(k, Given(plan, node, SavedBy(Given(plan, node, g), a))) == a
  }

  /** The step of an attempt on a stored graph state. */
  function Attempt(w: World, plan: Plan, limit: nat, k: nat, node: string, g: GraphState): Step {
    RunStep(w, plan, k, Reload(g, node), map[], limit)
  }

  /** An answer given again on what it saved saves the same. */
  lemma SavingAgain(plan: Plan, node: string, g: GraphState, a: NodeAnswer)
    requires node in plan.nodes && a.Answer?
    ensures var ctx := Given(plan, node, g);
            var again := Given(plan, node, SavedBy(ctx, a));
            && SavedBy(again, a) == SavedBy(ctx, a) && again.metadata == ctx.metadata
            && NewState(again, a) == NewState(ctx, a)
  {
    var ctx := Given(plan, node, g);
    var again := Given(plan, node, SavedBy(ctx, a));
    assert again.metadata == ctx.metadata;
    assert NewState(ctx, a).outputs[node := a.data] == NewState(ctx, a).outputs;
  }

  lemma StepSaves(w: World, plan: Plan, limit: nat, k: nat, node: string, g: GraphState)
    requires Attempt(w, plan, limit, k, node, g).saved.Some?
    ensures node in plan.nodes && w.execute(k, Given(plan, node, g)).Answer?
    ensures Attempt(w, plan, limit, k, node, g).saved == Some(SavedBy(Given(plan, node, g), w.execute(k, Given(plan, node, g))))
  {
    hide Evaluate, NextMetadata;
  }

  /** The steps agree on everything the workflow and the database get to see. */
  predicate SameEffect(s: Step, t: Step) { t.(context := s.context) == s }

  /** The answers agree on everything that is recorded. */
  predicate SameAnswer(ctx: Context, a: NodeAnswer, again: Context, b: NodeAnswer) {
    && a.Answer? && b.Answer? && a.needsInput == b.needsInput && a.data == b.data
    && SavedBy(ctx, a) == SavedBy(again, b)
  }

  lemma AttemptIs(w: World, plan: Plan, limit: nat, k: nat, node: string, g: GraphState)
    requires node in plan.nodes && w.resolves(plan.nodes[node]) && w.constructs(plan.nodes[node])
    requires w.execute(k, Given(plan, node, g)).Answer?
    ensures var ctx := Given(plan, node, g);
            Attempt(w, plan, limit, k, node, g) == AfterExecution(w, plan, k, ctx, w.execute(k, ctx), map[], limit)
  {
    hide AfterExecution;
  }

  lemma SameChoice(w: World, plan: Plan, ctx: Context, again: Context, data: Data, state: State, memory: seq<string>,
                   run: Option<string>, ev: Evaluation)
    requires ctx.node in plan.nodes && again.node == ctx.node && again.metadata == ctx.metadata
    ensures SameEffect(Choose(w, plan, ctx, data, state, memory, run, ev), Choose(w, plan, again, data, state, memory, run, ev))
  {
  }

  /** Answers with the same effect make steps with the same effect. */
  lemma StepFromAnswer(w: World, plan: Plan, limit: nat, k: nat, node: string, g: GraphState, g': GraphState)
    requires node in plan.nodes && w.resolves(plan.nodes[node]) && w.constructs(plan.nodes[node])
    requires var ctx, again := Given(plan, node, g), Given(plan, node, g');
             SameAnswer(ctx, w.execute(k, ctx), again, w.execute(k, again)) && again.metadata == ctx.metadata
    ensures SameEffect(Attempt(w, plan, limit, k, node, g), Attempt(w, plan, limit, k, node, g'))
  {
    AttemptIs(w, plan, limit, k, node, g);
    AttemptIs(w, plan, limit, k, node, g');
    hide Evaluate, IsTerminalType, Attempt, Choose, NewState;
    var ctx, again := Given(plan, node, g), Given(plan, node, g');
    var a := w.execute(k, ctx);
    SameChoice(w, plan, ctx, again, a.data, SavedBy(ctx, a).state, SavedBy(ctx, a).memory, Some(w.runId(k)),
               Evaluate(w, Out(plan.edges, node), node, a.data, limit, map[]));
  }

  lemma AnswerFromStep(w: World, plan: Plan, limit: nat, k: nat, node: string, g: GraphState, g': GraphState)
    requires Attempt(w, plan, limit, k, node, g).saved.Some?
    requires SameEffect(Attempt(w, plan, limit, k, node, g), Attempt(w, plan, limit, k, node, g'))
    ensures node in plan.nodes
    ensures var ctx, again := Given(plan, node, g), Given(plan, node, g');
            SameAnswer(ctx, w.execute(k, ctx), again, w.execute(k, again))
  {
    StepSaves(w, plan, limit, k, node, g);
    StepSaves(w, plan, limit, k, node, g');
    AttemptAnswered(w, plan, limit, k, node, g);
    AttemptAnswered(w, plan, limit, k, node, g');
    hide RunStep;
  }

  lemma AttemptAnswered(w: World, plan: Plan, limit: nat, k: nat, node: string, g: GraphState)
    requires node in plan.nodes && w.execute(k, Given(plan, node, g)).Answer? && Attempt(w, plan, limit, k, node, g).saved.Some?
    ensures var s, a := Attempt(w, plan, limit, k, node, g), w.execute(k, Given(plan, node, g));
            s.data == a.data && (s.kind.StepNeedsInput? <==> a.needsInput)
  {
    hide Evaluate, NextMetadata;
  }

  lemma SavedRuns(w: World, plan: Plan, limit: nat, k: nat, node: string, g: GraphState)
    requires Attempt(w, plan, limit, k, node, g).saved.Some?
    ensures node in plan.nodes && w.resolves(plan.nodes[node]) && w.constructs(plan.nodes[node])
  {
    hide Evaluate, NextMetadata;
  }

  /** A retry after an attempt that died having saved is invisible exactly when the node, executed on
      what that attempt saved, gives an answer with the same effect. */
  lemma RetryInvisibleIff(w: World, plan: Plan, limit: nat, k: nat, node: string, g: GraphState)
    requires Attempt(w, plan, limit, k, node, g).saved.Some?
    ensures node in plan.nodes
    ensures var s := Attempt(w, plan, limit, k, node, g);
            var ctx, again := Given(plan, node, g), Given(plan, node, s.saved.value);
            SameEffect(s, Attempt(w, plan, limit, k, node, s.saved.value)) <==>
              SameAnswer(ctx, w.execute(k, ctx), again, w.execute(k, again))
  {
    StepSaves(w, plan, limit, k, node, g);
    SavedRuns(w, plan, limit, k, node, g);
    hide Attempt, SameEffect;
    var s := Attempt(w, plan, limit, k, node, g);
    var ctx, again := Given(plan, node, g), Given(plan, node, s.saved.value);
    SavingAgain(plan, node, g, w.execute(k, ctx));
    if SameAnswer(ctx, w.execute(k, ctx), again, w.execute(k, again)) {
      StepFromAnswer(w, plan, limit, k, node, g, s.saved.value);
    }
    if SameEffect(s, Attempt(w, plan, limit, k, node, s.saved.value)) {
      AnswerFromStep(w, plan, limit, k, node, g, s.saved.value);
    }
  }

  /** A node that adds to the memory it is given adds twice when it is retried. */
  lemma AppendingIsVisible(w: World, plan: Plan, limit: nat, k: nat, node: string, g: GraphState, note: string)
    requires node in plan.nodes && w.resolves(plan.nodes[node]) && w.constructs(plan.nodes[node])
    requires forall c: Context :: w.execute(k, c).Answer? && w.execute(k, c).memory == Some(c.memory + [note])
    ensures var s := Attempt(w, plan, limit, k, node, g);
            s.saved.Some? && Attempt(w, plan, limit, k, node, s.saved.value).saved.Some?
            && Attempt(w, plan, limit, k, node, s.saved.value).saved.value.memory == g.memory + [note, note]
  {
    AnsweredSaves(w, plan, limit, k, node, g);
    var s := Attempt(w, plan, limit, k, node, g);
    AnsweredSaves(w, plan, limit, k, node, s.saved.value);
    hide Attempt;
    StepSaves(w, plan, limit, k, node, g);
    StepSaves(w, plan, limit, k, node, s.saved.value);
    assert (g.memory + [note]) + [note] == g.memory + [note, note];
  }

  lemma AnsweredSaves(w: World, plan: Plan, limit: nat, k: nat, node: string, g: GraphState)
    requires node in plan.nodes && w.resolves(plan.nodes[node]) && w.constructs(plan.nodes[node])
    requires w.execute(k, Given(plan, node, g)).Answer?
    ensures Attempt(w, plan, limit, k, node, g).saved.Some?
  {
    hide Evaluate, NextMetadata;
  }

  // ----- The cache in front of the graph state -----

  /** What happens to the cached entry around an attempt: it has expired before, the load caches what it
      read, the delete after the save succeeds. */
  datatype Luck = Luck(expired: bool, cached: bool, deleted: bool)

  /** The database and the cached graph state. */
  datatype Stored = Stored(db: Db, cache: Option<GraphState>)

  /** The entry is the state in the database, if there is one. */
  predicate Coherent(st: Stored) { st.db.graph.Some? && (st.cache.Some? ==> st.cache == st.db.graph) }

  function Live(st: Stored, luck: Luck): Option<GraphState> { if luck.expired then None else st.cache }

  /** What a load finds. */
  function Found(st: Stored, luck: Luck): GraphState
    requires st.db.graph.Some?
  {
    if Live(st, luck).Some? then Live(st, luck).value else st.db.graph.value
  }

  /** The cached entry after an attempt that made step s. */
  function CacheAfter(st: Stored, s: Step, luck: Luck): Option<GraphState>
    requires st.db.graph.Some?
  {
    if s.saved.Some? && luck.deleted then None
    else if Live(st, luck).Some? || luck.cached then Some(Found(st, luck))
    else None
  }

  /** The load after a step finds what the step left in the database exactly when the entry is gone or
      the step saved nothing new. */
  lemma NextLoadIsCurrentIff(st: Stored, s: Step, now: Luck, next: Luck)
    requires Coherent(st)
    ensures var after := Stored(Record(st.db, s), CacheAfter(st, s, now));
            Found(after, next) == after.db.graph.value <==>
              next.expired || now.deleted || (Live(st, now).None? && !now.cached) || s.saved.None? || s.saved == st.db.graph
  {
  }

  // ----- Attempts at one step -----

  /** The step an attempt makes. */
  function StepOn(run: Stepper, k: nat, node: string, st: Stored, luck: Luck): Step
    requires st.db.graph.Some?
  {
    run(k, Reload(Found(st, luck), node), map[])
  }

  /** An attempt that dies, before it commits the graph state or after; after the commit it may have deleted
      the cached entry or not. */
  datatype Dead = Dead(luck: Luck, commits: bool)

  function AfterDead(run: Stepper, k: nat, node: string, st: Stored, dead: Dead): (r: Stored)
    requires st.db.graph.Some?
    ensures r.db.graph.Some?
  {
    var s := StepOn(run, k, node, st, dead.luck);
    var done := if dead.commits then s else s.(saved := None);
    Stored(st.db.(graph := if done.saved.Some? then done.saved else st.db.graph), CacheAfter(st, done, dead.luck))
  }

  function AfterAllDead(run: Stepper, k: nat, node: string, st: Stored, dead: seq<Dead>): (r: Stored)
    requires st.db.graph.Some?
    ensures r.db.graph.Some?
    decreases |dead|
  {
    if dead == [] then st else AfterAllDead(run, k, node, AfterDead(run, k, node, st, dead[0]), dead[1..])
  }

  /** A retry after an attempt that died having committed is invisible exactly when it still finds the state
      cached before the commit, or the node, executed on what was committed, gives an answer with the same
      effect. */
  lemma RetryThroughCacheIff(w: World, plan: Plan, limit: nat, k: nat, node: string, st: Stored, dead: Dead, next: Luck)
    requires Coherent(st) && dead.commits && Attempt(w, plan, limit, k, node, st.db.graph.value).saved.Some?
    ensures node in plan.nodes
    ensures var run, g := StepperOf(w, plan, limit), st.db.graph.value;
            var s := Attempt(w, plan, limit, k, node, g);
            var ctx, again := Given(plan, node, g), Given(plan, node, s.saved.value);
            SameEffect(s, StepOn(run, k, node, AfterDead(run, k, node, st, dead), next)) <==>
              || (!next.expired && !dead.luck.deleted && (Live(st, dead.luck).Some? || dead.luck.cached))
              || SameAnswer(ctx, w.execute(k, ctx), again, w.execute(k, again))
  {
    hide SameEffect, SameAnswer, RunStep, Given;
    RetryInvisibleIff(w, plan, limit, k, node, st.db.graph.value);
    SameEffectSelf(Attempt(w, plan, limit, k, node, st.db.graph.value));
  }

  lemma SameEffectSelf(s: Step)
    ensures SameEffect(s, s)
  {
  }

  /** Every step, run again on what it saved, has the same effect. */
  ghost predicate Repeatable(run: Stepper) {
    forall k: nat :: RepeatableAt(run, k)
  }

  ghost predicate RepeatableAt(run: Stepper, k: nat) {
    forall node, g :: RepeatableOn(run, k, node, g)
  }

  ghost predicate RepeatableOn(run: Stepper, k: nat, node: string, g: GraphState) {
    var s := run(k, Reload(g, node), map[]);
    s.saved.Some? ==> SameEffect(s, run(k, Reload(s.saved.value, node), map[]))
  }

  /** Where attempts at a step can leave the database and the entry: each has the state before the step, or
      the one the step saves. */
  ghost predicate Near(db: Db, s: Step, st: Stored) {
    && db.graph.Some? && st.db.graph.Some?
    && (st.db == db || (s.saved.Some? && st.db == db.(graph := s.saved)))
    && (st.cache.None? || st.cache == db.graph || st.cache == s.saved)
  }

  lemma NearMakesSame(run: Stepper, k: nat, node: string, db: Db, st: Stored, luck: Luck)
    requires db.graph.Some? && Near(db, ExecuteNode(run, k, node, db), st) && RepeatableAt(run, k)
    ensures SameEffect(ExecuteNode(run, k, node, db), StepOn(run, k, node, st, luck))
  {
    assert RepeatableOn(run, k, node, db.graph.value);
  }

  lemma DeadStaysNear(run: Stepper, k: nat, node: string, db: Db, st: Stored, dead: Dead)
    requires db.graph.Some? && Near(db, ExecuteNode(run, k, node, db), st) && RepeatableAt(run, k)
    ensures Near(db, ExecuteNode(run, k, node, db), AfterDead(run, k, node, st, dead))
  {
    NearMakesSame(run, k, node, db, st, dead.luck);
    hide RepeatableAt;
  }

  lemma {:induction false} AllDeadStayNear(run: Stepper, k: nat, node: string, db: Db, st: Stored, dead: seq<Dead>)
    requires db.graph.Some? && Near(db, ExecuteNode(run, k, node, db), st) && (dead != [] ==> RepeatableAt(run, k))
    ensures Near(db, ExecuteNode(run, k, node, db), AfterAllDead(run, k, node, st, dead))
    decreases |dead|
  {
    assert st.db.graph.Some?;
    hide Near, RepeatableAt, AfterDead;
    if dead != [] {
      DeadStaysNear(run, k, node, db, st, dead[0]);
      AllDeadStayNear(run, k, node, db, AfterDead(run, k, node, st, dead[0]), dead[1..]);
    }
  }

  // ----- Whole runs -----

  /** The attempts at one step: those that died, and the one that did not. */
  datatype Tries = Tries(dead: seq<Dead>, last: Luck)

  /** The durable engine behind the cache, with the given attempts at each step; last, the nodes executed. */
  function Tried(run: Stepper, limit: nat, maxSteps: nat, walk: W.Walk, st: Stored, tries: nat -> Tries): (W.Walk, Db, seq<string>)
    requires st.db.graph.Some? && (walk.ending.None? ==> walk.stepIndex < maxSteps)
    decreases if walk.ending.Some? then 0 else maxSteps - walk.stepIndex
  {
    if walk.ending.Some? then (walk, st.db, [])
    else
      var k := walk.stepIndex;
      var found := AfterAllDead(run, k, walk.current, st, tries(k).dead);
      var s := StepOn(run, k, walk.current, found, tries(k).last);
      var after := Stored(Record(found.db, s), CacheAfter(found, s, tries(k).last));
      var (end, db, path) := Tried(run, limit, maxSteps, W.Advance(walk, maxSteps, limit, OutputOf(s)), after, tries);
      (end, db, [walk.current] + path)
  }

  /** No attempt caches what it read. */
  ghost predicate Uncached(t: Tries) { !t.last.cached && forall d :: d in t.dead ==> !d.luck.cached }

  /** The attempts that do not die delete the entry, or nothing is ever cached. */
  ghost predicate Careful(cache: Option<GraphState>, tries: nat -> Tries) {
    (forall k :: tries(k).last.deleted) || (cache.None? && forall k :: Uncached(tries(k)))
  }

  lemma {:induction false} StaysUncached(run: Stepper, k: nat, node: string, st: Stored, dead: seq<Dead>)
    requires st.db.graph.Some? && st.cache.None? && forall d :: d in dead ==> !d.luck.cached
    ensures AfterAllDead(run, k, node, st, dead).cache.None?
    decreases |dead|
  {
    if dead != [] {
      assert dead[0] in dead;
      StaysUncached(run, k, node, AfterDead(run, k, node, st, dead[0]), dead[1..]);
    }
  }

  /** One step with its attempts: it has the effect of one clean attempt and leaves the entry coherent. */
  lemma TriedStep(run: Stepper, k: nat, node: string, st: Stored, t: Tries)
    requires Coherent(st) && (t.dead != [] ==> RepeatableAt(run, k))
    requires t.last.deleted || (st.cache.None? && Uncached(t))
    ensures var found := AfterAllDead(run, k, node, st, t.dead);
            var s, u := ExecuteNode(run, k, node, st.db), StepOn(run, k, node, found, t.last);
            && SameEffect(s, u) && Record(found.db, u) == Record(st.db, s)
            && Coherent(Stored(Record(found.db, u), CacheAfter(found, u, t.last)))
            && (st.cache.None? && Uncached(t) ==> CacheAfter(found, u, t.last).None?)
  {
    var found := AfterAllDead(run, k, node, st, t.dead);
    AllDeadStayNear(run, k, node, st.db, st, t.dead);
    if t.dead != [] { NearMakesSame(run, k, node, st.db, found, t.last); }
    if st.cache.None? && Uncached(t) { StaysUncached(run, k, node, st, t.dead); }
    hide AfterDead, RepeatableAt;
  }

  /** Dead attempts at any steps and the cache cannot be seen: when the steps with dead attempts are repeatable
      and the attempts that do not die delete the entry, the run is the one without either. */
  lemma {:induction false} TriesAreInvisible(run: Stepper, limit: nat, maxSteps: nat, walk: W.Walk, st: Stored, tries: nat -> Tries)
    requires Coherent(st) && (walk.ending.None? ==> walk.stepIndex < maxSteps)
    requires Careful(st.cache, tries) && forall k :: tries(k).dead != [] ==> RepeatableAt(run, k)
    ensures var (end, db, path) := Tried(run, limit, maxSteps, walk, st, tries);
            && (end, db) == Durable(run, limit, maxSteps, walk, st.db)
            && path == DurablePath(run, limit, maxSteps, walk, st.db)
    decreases if walk.ending.Some? then 0 else maxSteps - walk.stepIndex
  {
    hide RepeatableAt, AfterAllDead, ExecuteNode, StepOn, CacheAfter, Uncached;
    if walk.ending.None? {
      var k, node := walk.stepIndex, walk.current;
      TriedStep(run, k, node, st, tries(k));
      var found := AfterAllDead(run, k, node, st, tries(k).dead);
      var s, u := ExecuteNode(run, k, node, st.db), StepOn(run, k, node, found, tries(k).last);
      assert OutputOf(u) == OutputOf(s);
      TriesAreInvisible(run, limit, maxSteps, W.Advance(walk, maxSteps, limit, OutputOf(s)),
                        Stored(Record(found.db, u), CacheAfter(found, u, tries(k).last)), tries);
    }
  }

  /** Executors that settle make every step repeatable. */
  lemma SettlingIsRepeatable(w: World, plan: Plan, limit: nat)
    requires Settles(w, plan)
    ensures Repeatable(StepperOf(w, plan, limit))
  {
    var run := StepperOf(w, plan, limit);
    forall k: nat, node, g ensures RepeatableOn(run, k, node, g) {
      if Attempt(w, plan, limit, k, node, g).saved.Some? {
        StepSaves(w, plan, limit, k, node, g);
        assert SettlesOn(w, plan, k, node, g);
        SavingAgain(plan, node, g, w.execute(k, Given(plan, node, g)));
        RetryInvisibleIff(w, plan, limit, k, node, g);
      }
    }
  }

  /** With dead attempts anywhere and behind the cache, the durable run still has the in-process run's path,
      steps, outcome, node and terminal writes, for executors that read only what both engines show and that
      settle. */
  lemma TriedMirrorsInProcess(w: World, plan: Plan, limit: nat, start: Context, st: Stored, tries: nat -> Tries)
    requires FlowEquivalence.ReadsVisible(w) && (forall n :: w.runId(n) != "") && Settles(w, plan)
    requires st.db.graph == Some(GraphState(start.node, start.state, start.memory, start.metadata))
    requires Coherent(st) && Careful(st.cache, tries)
    ensures var run, maxSteps := StepperOf(w, plan, limit), MaxSteps(plan, limit);
            var (end, after, path) := Tried(run, limit, maxSteps, W.Begin(start.node, maxSteps), st, tries);
            FlowEquivalence.Concludes(InProcess(w, plan, limit, start), end, after) && path == InProcess(w, plan, limit, start).path
  {
    hide FlowEquivalence.ReadsVisible, Settles, RepeatableAt, MaxSteps, StepperOf, InProcess, FlowEquivalence.Concludes, Coherent, Careful;
    FlowEquivalence.DurableMirrorsInProcess(w, plan, limit, start, st.db);
    SettlingIsRepeatable(w, plan, limit);
    var maxSteps := MaxSteps(plan, limit);
    TriesAreInvisible(StepperOf(w, plan, limit), limit, maxSteps, W.Begin(start.node, maxSteps), st, tries);
  }
}
