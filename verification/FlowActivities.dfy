/** The database side of a flow run: the writes of `prepare_flow_run` and
    `finalize_flow_run`, and what happens when an attempt dies between two of them. */
module FlowActivities {
  import opened FlowGraph
  import opened FlowWorkflow

  type Data = map<string, string>

  /** Node state; the outputs kept under `_node_outputs_by_node_id` are a field of their own. */
  datatype State = State(fields: Data, outputs: map<string, Data>)

  /** The `graph_state` row. */
  datatype GraphState = GraphState(node: string, state: State, memory: seq<string>, metadata: Data)

  /** `FlowFailureReason`. */
  datatype Reason =
    | POLICY_VIOLATION | TIMEOUT | STRUCTURAL_ERROR | CIRCUIT_BREAKER_OPEN | MISSING_GRAPH | MAX_STEPS_EXCEEDED
    | NODE_NOT_FOUND | UNKNOWN_NODE_TYPE | NO_MATCHING_EDGE | EDGE_EVALUATION_ERROR | MULTIPLE_MATCHING_EDGES

  /** `reason.value`. */
  function ReasonValue(r: Reason): string {
    match r
    case POLICY_VIOLATION => "POLICY_VIOLATION"
    case TIMEOUT => "TIMEOUT"
    case STRUCTURAL_ERROR => "STRUCTURAL_ERROR"
    case CIRCUIT_BREAKER_OPEN => "CIRCUIT_BREAKER_OPEN"
    case MISSING_GRAPH => "MISSING_GRAPH"
    case MAX_STEPS_EXCEEDED => "MAX_STEPS_EXCEEDED"
    case NODE_NOT_FOUND => "NODE_NOT_FOUND"
    case UNKNOWN_NODE_TYPE => "UNKNOWN_NODE_TYPE"
    case NO_MATCHING_EDGE => "NO_MATCHING_EDGE"
    case EDGE_EVALUATION_ERROR => "EDGE_EVALUATION_ERROR"
    case MULTIPLE_MATCHING_EDGES => "MULTIPLE_MATCHING_EDGES"
  }

  const REASONS: seq<Reason> := [
    POLICY_VIOLATION, TIMEOUT, STRUCTURAL_ERROR, CIRCUIT_BREAKER_OPEN, MISSING_GRAPH, MAX_STEPS_EXCEEDED,
    NODE_NOT_FOUND, UNKNOWN_NODE_TYPE, NO_MATCHING_EDGE, EDGE_EVALUATION_ERROR, MULTIPLE_MATCHING_EDGES]

  function FindReason(raw: string, reasons: seq<Reason>): Reason {
    if reasons == [] then STRUCTURAL_ERROR
    else if ReasonValue(reasons[0]) == raw then reasons[0]
    else FindReason(raw, reasons[1..])
  }

  /** `_failure_reason`: unknown and missing texts read as STRUCTURAL_ERROR. */
  function ParseReason(raw: Option<string>): Reason {
    if raw.None? then STRUCTURAL_ERROR else FindReason(raw.value, REASONS)
  }

  lemma ReasonValuesDiffer(r: Reason, r': Reason)
    requires ReasonValue(r) == ReasonValue(r')
    ensures r == r'
  {
    var s, s' := ReasonValue(r), ReasonValue(r');
    assert |s| == |s'| && s[0] == s'[0] && s[1] == s'[1];
  }

  lemma {:induction false} FindsReason(r: Reason, reasons: seq<Reason>)
    requires r in reasons
    ensures FindReason(ReasonValue(r), reasons) == r
  {
    if ReasonValue(reasons[0]) == ReasonValue(r) {
      ReasonValuesDiffer(reasons[0], r);
    } else {
      FindsReason(r, reasons[1..]);
    }
  }

  /** The reason a run is finalized with is the reason that is stored. */
  lemma ReasonRoundTrip(r: Reason)
    ensures ParseReason(Some(ReasonValue(r))) == r && ReasonValue(r) != ""
  {
    assert r in REASONS by {
      assert REASONS[0] == POLICY_VIOLATION && REASONS[1] == TIMEOUT && REASONS[2] == STRUCTURAL_ERROR;
      assert REASONS[3] == CIRCUIT_BREAKER_OPEN && REASONS[4] == MISSING_GRAPH && REASONS[5] == MAX_STEPS_EXCEEDED;
      assert REASONS[6] == NODE_NOT_FOUND && REASONS[7] == UNKNOWN_NODE_TYPE && REASONS[8] == NO_MATCHING_EDGE;
      assert REASONS[9] == EDGE_EVALUATION_ERROR && REASONS[10] == MULTIPLE_MATCHING_EDGES;
    }
    FindsReason(r, REASONS);
  }

  lemma {:induction false} FindsNothing(raw: string, reasons: seq<Reason>)
    requires forall r :: r in reasons ==> ReasonValue(r) != raw
    ensures FindReason(raw, reasons) == STRUCTURAL_ERROR
  {
    if reasons != [] {
      assert reasons[0] in reasons;
      FindsNothing(raw, reasons[1..]);
    }
  }

  /** Texts that are no reason's, and a missing text, are stored as STRUCTURAL_ERROR; every other reason is
      stored for its own text only. */
  lemma ParseReasonIff(raw: Option<string>, r: Reason)
    ensures ParseReason(raw) == r <==>
      raw == Some(ReasonValue(r)) || (r == STRUCTURAL_ERROR && forall r' :: raw != Some(ReasonValue(r')))
  {
    hide ReasonValue;
    if raw.Some? {
      if r' :| raw == Some(ReasonValue(r')) {
        ReasonRoundTrip(r');
        if ReasonValue(r) == ReasonValue(r') { ReasonValuesDiffer(r, r'); }
      } else {
        FindsNothing(raw.value, REASONS);
      }
    }
  }

  // ----- Tables and writes -----

  datatype RunRow = RunRow(status: string, canonical: string, output: Data, error: Option<Reason>)
  datatype Interaction = Interaction(output: Data, nodeRun: Option<string>)
  datatype Event =
    | FlowCompleted(terminatedAt: Option<string>, payload: Data, policy: Option<string>)
    | FlowFailed(reason: Reason)

  /** What one flow run occupies in the database, and the released idempotency keys. */
  datatype Db = Db(row: RunRow, graph: Option<GraphState>, nodeRuns: map<string, Data>,
                   interaction: Interaction, events: seq<Event>, released: map<string, Outcome>)

  /** One committed repository call. */
  datatype Write =
    | SetStatus(status: string, canonical: string)
    | Complete(output: Data)
    | Fail(reason: Reason)
    | SetOutput(output: Data)
    | SetInteraction(output: Data, nodeRun: Option<string>)
    | SaveGraph(graph: GraphState)
    | Append(event: Event)
    | Release(key: string, outcome: Outcome)

  function Apply(db: Db, w: Write): Db {
    match w
    case SetStatus(s, c) => db.(row := db.row.(status := s, canonical := c))
    case Complete(o) => db.(row := db.row.(status := "COMPLETED", canonical := "COMPLETED", output := o))
    case Fail(r) => db.(row := db.row.(status := "FAILED", canonical := "FAILED", error := Some(r)))
    case SetOutput(o) => db.(row := db.row.(output := o))
    case SetInteraction(o, n) => db.(interaction := Interaction(o, n))
    case SaveGraph(g) => db.(graph := Some(g))
    case Append(e) => db.(events := db.events + [e])
    case Release(k, o) => db.(released := db.released[k := o])
  }

  function ApplyAll(db: Db, ws: seq<Write>): Db
    decreases |ws|
  {
    if ws == [] then db else ApplyAll(Apply(db, ws[0]), ws[1..])
  }

  // ----- The activities -----

  /** `prepare_flow_run`: seed the graph state unless there is one, then mark RUNNING. */
  function PrepareWrites(db: Db, seed: GraphState): seq<Write> {
    (if db.graph.None? then [SaveGraph(seed)] else []) + [SetStatus("RUNNING", "RUNNING")]
  }

  /** `_last_node_output`. */
  function LastOutput(db: Db, nodeRun: Option<string>): Data {
    if nodeRun.Some? && nodeRun.value != "" && nodeRun.value in db.nodeRuns then db.nodeRuns[nodeRun.value] else map[]
  }

  function Policy(db: Db): Option<string> {
    if db.graph.Some? && "runtime_policy" in db.graph.value.metadata then Some(db.graph.value.metadata["runtime_policy"]) else None
  }

  /** The terminal writes of each outcome, shared by `finalize_flow_run` and the in-process
      executor (no-hook branch for events). */
  function CompletedWrites(data: Data, nodeRun: Option<string>, node: Option<string>, policy: Option<string>): seq<Write> {
    [Complete(data), SetInteraction(data, nodeRun), Append(FlowCompleted(node, data, policy))]
  }

  function WaitingWrites(data: Data, nodeRun: Option<string>): seq<Write> {
    [SetOutput(data), SetInteraction(data, nodeRun), SetStatus("WAITING_INPUT", "WAITING")]
  }

  function FailedWrites(reason: Reason): seq<Write> { [Fail(reason), Append(FlowFailed(reason))] }

  /** `_optional_uuid`: an empty identifier is none. */
  function Named(nodeRun: Option<string>): Option<string> { if nodeRun == Some("") then None else nodeRun }

  function OutcomeWrites(db: Db, e: Ending): seq<Write> {
    match e.outcome
    case COMPLETED => CompletedWrites(LastOutput(db, e.lastRun), Named(e.lastRun), e.lastNode, Policy(db))
    case WAITING => WaitingWrites(LastOutput(db, e.lastRun), Named(e.lastRun))
    case CANCELLED => [SetStatus("CANCELLED", "FAILED")]
    case FAILED => FailedWrites(ParseReason(e.reason))
  }

  /** `finalize_flow_run`, including `_release_idempotency`. */
  function FinalizeWrites(db: Db, e: Ending, key: Option<string>): seq<Write> {
    OutcomeWrites(db, e) + (if key.Some? && key.value != "" then [Release(key.value, e.outcome)] else [])
  }

  // ----- Attempts that die -----

  function Cut(ws: seq<Write>, n: nat): seq<Write> { if n <= |ws| then ws[..n] else ws }

  /** Attempts that die after the given numbers of writes, then one that succeeds. Each
      attempt reads the database afresh. */
  function RetriedPrepare(db: Db, seed: GraphState, crashes: seq<nat>): Db
    decreases |crashes|
  {
    if crashes == [] then ApplyAll(db, PrepareWrites(db, seed))
    else RetriedPrepare(ApplyAll(db, Cut(PrepareWrites(db, seed), crashes[0])), seed, crashes[1..])
  }

  function RetriedFinalize(db: Db, e: Ending, key: Option<string>, crashes: seq<nat>): Db
    decreases |crashes|
  {
    if crashes == [] then ApplyAll(db, FinalizeWrites(db, e, key))
    else RetriedFinalize(ApplyAll(db, Cut(FinalizeWrites(db, e, key), crashes[0])), e, key, crashes[1..])
  }

  // ----- Writes overwrite -----

  /** The places a write can overwrite. */
  datatype Field = FStatus | FOutput | FError | FInteraction | FGraph | FKey(key: string)

  function Fields(w: Write): set<Field> {
    match w
    case SetStatus(_, _) => {FStatus}
    case Complete(_) => {FStatus, FOutput}
    case Fail(_) => {FStatus, FError}
    case SetOutput(_) => {FOutput}
    case SetInteraction(_, _) => {FInteraction}
    case SaveGraph(_) => {FGraph}
    case Append(_) => {}
    case Release(k, _) => {FKey(k)}
  }

  function Touched(ws: seq<Write>): set<Field> {
    if ws == [] then {} else Fields(ws[0]) + Touched(ws[1..])
  }

  predicate Same(f: Field, a: Db, b: Db) {
    match f
    case FStatus => a.row.status == b.row.status && a.row.canonical == b.row.canonical
    case FOutput => a.row.output == b.row.output
    case FError => a.row.error == b.row.error
    case FInteraction => a.interaction == b.interaction
    case FGraph => a.graph == b.graph
    case FKey(k) => if k in a.released then k in b.released && a.released[k] == b.released[k] else k !in b.released
  }

  /** Equal outside the given places. */
  ghost predicate AgreeOutside(places: set<Field>, a: Db, b: Db) {
    a.nodeRuns == b.nodeRuns && forall f :: f !in places ==> Same(f, a, b)
  }

  /** Everything but the event log. */
  function Core(db: Db): (RunRow, Option<GraphState>, map<string, Data>, Interaction, map<string, Outcome>) {
    (db.row, db.graph, db.nodeRuns, db.interaction, db.released)
  }

  lemma AgreeEverywhere(a: Db, b: Db)
    requires AgreeOutside({}, a, b)
    ensures Core(a) == Core(b)
  {
    assert Same(FStatus, a, b) && Same(FOutput, a, b) && Same(FError, a, b);
    assert Same(FInteraction, a, b) && Same(FGraph, a, b);
    forall k ensures k in a.released <==> k in b.released {
      assert Same(FKey(k), a, b);
    }
    forall k | k in a.released ensures a.released[k] == b.released[k] {
      assert Same(FKey(k), a, b);
    }
    assert a.released == b.released;
  }

  lemma WriteForgets(a: Db, b: Db, w: Write, f: Field)
    requires f in Fields(w) || Same(f, a, b)
    ensures Same(f, Apply(a, w), Apply(b, w))
  {
  }

  /** Two databases that differ only where the writes go become equal. */
  lemma {:induction false} WritesForget(a: Db, b: Db, ws: seq<Write>)
    requires AgreeOutside(Touched(ws), a, b)
    ensures Core(ApplyAll(a, ws)) == Core(ApplyAll(b, ws))
    decreases |ws|
  {
    if ws == [] {
      AgreeEverywhere(a, b);
    } else {
      var a', b' := Apply(a, ws[0]), Apply(b, ws[0]);
      forall f | f !in Touched(ws[1..]) ensures Same(f, a', b') {
        WriteForgets(a, b, ws[0], f);
      }
      WritesForget(a', b', ws[1..]);
    }
  }

  lemma {:induction false} PrefixTouches(db: Db, ws: seq<Write>, n: nat)
    requires n <= |ws|
    ensures AgreeOutside(Touched(ws), ApplyAll(db, ws[..n]), db)
    decreases n
  {
    if n > 0 {
      var next := Apply(db, ws[0]);
      assert ws[..n][1..] == ws[1..][..n-1] && ws[..n][0] == ws[0];
      PrefixTouches(next, ws[1..], n - 1);
      forall f | f !in Touched(ws) ensures Same(f, ApplyAll(db, ws[..n]), db) {
        assert Same(f, ApplyAll(next, ws[1..][..n-1]), next);
        assert f !in Fields(ws[0]) && Same(f, next, db);
      }
    }
  }

  /** Dying anywhere in a list of writes and then making all of them is, apart from the events,
      the same as making them once. */
  lemma DyingThenRedoing(db: Db, ws: seq<Write>, n: nat)
    ensures Core(ApplyAll(ApplyAll(db, Cut(ws, n)), ws)) == Core(ApplyAll(db, ws))
  {
    var m := if n <= |ws| then n else |ws|;
    assert Cut(ws, n) == ws[..m];
    PrefixTouches(db, ws, m);
    WritesForget(ApplyAll(db, ws[..m]), db, ws);
  }

  /** The events a list of writes appends. */
  function Appended(ws: seq<Write>): seq<Event> {
    if ws == [] then [] else (if ws[0].Append? then [ws[0].event] else []) + Appended(ws[1..])
  }

  lemma {:induction false} EventsAppended(db: Db, ws: seq<Write>)
    ensures ApplyAll(db, ws).events == db.events + Appended(ws)
    decreases |ws|
  {
    if ws != [] { EventsAppended(Apply(db, ws[0]), ws[1..]); }
  }

  lemma {:induction false} AppendedSplit(ws: seq<Write>, n: nat)
    requires n <= |ws|
    ensures Appended(ws) == Appended(ws[..n]) + Appended(ws[n..])
  {
    if n > 0 {
      assert ws[..n][1..] == ws[1..][..n-1] && ws[n..] == ws[1..][n-1..];
      AppendedSplit(ws[1..], n - 1);
    } else {
      assert ws[..0] == [] && ws[0..] == ws;
    }
  }

  // ----- Retried activities -----

  /** Retrying a prepare that died anywhere gives the database of one clean execution. */
  lemma {:induction false} PrepareRetriesLeaveNoTrace(db: Db, seed: GraphState, crashes: seq<nat>)
    ensures RetriedPrepare(db, seed, crashes) == ApplyAll(db, PrepareWrites(db, seed))
    decreases |crashes|
  {
    if crashes != [] {
      var ws := PrepareWrites(db, seed);
      var cut := Cut(ws, crashes[0]);
      var died := ApplyAll(db, cut);
      PrepareRetriesLeaveNoTrace(died, seed, crashes[1..]);
      var save, mark := SaveGraph(seed), SetStatus("RUNNING", "RUNNING");
      assert [save, mark][1..] == [mark];
      var seeded := if db.graph.None? then Apply(db, save) else db;
      assert cut == [] || cut == ws || (db.graph.None? && cut == [save]);
      assert ApplyAll(seeded, [mark]) == Apply(seeded, mark);
      assert ApplyAll(db, ws) == Apply(seeded, mark);
      assert [save][1..] == [];
      assert cut == [] ==> died == db;
      assert ApplyAll(db, [save]) == ApplyAll(Apply(db, save), []) == Apply(db, save);
      assert db.graph.None? && cut == [save] ==> died == seeded;
      assert died == db || died == seeded || died == Apply(seeded, mark);
      assert died != db ==> PrepareWrites(died, seed) == [mark];
      assert ApplyAll(died, [mark]) == Apply(died, mark);
    }
  }

  /** Preparing a turn keeps the graph state of an earlier turn and seeds it otherwise, marks the run
      RUNNING and changes nothing else, however often it dies on the way. */
  lemma PreparedExactly(db: Db, seed: GraphState, crashes: seq<nat>)
    ensures var r := RetriedPrepare(db, seed, crashes);
            && r.graph == (if db.graph.Some? then db.graph else Some(seed))
            && r.row.status == "RUNNING" && r.row.canonical == "RUNNING"
            && r.row.output == db.row.output && r.row.error == db.row.error
            && r.nodeRuns == db.nodeRuns && r.interaction == db.interaction && r.events == db.events && r.released == db.released
  {
    PrepareRetriesLeaveNoTrace(db, seed, crashes);
    var save, mark := SaveGraph(seed), SetStatus("RUNNING", "RUNNING");
    ApplyOne(db, mark);
    ApplyOne(Apply(db, save), mark);
    assert [save, mark][1..] == [mark];
    assert ApplyAll(db, [save, mark]) == ApplyAll(Apply(db, save), [mark]);
    assert [] + [mark] == [mark] && [save] + [mark] == [save, mark];
  }

  lemma ApplyOne(db: Db, w: Write)
    ensures ApplyAll(db, [w]) == Apply(db, w)
  {
    assert [w][1..] == [];
  }

  lemma {:induction false} ApplySplit(db: Db, a: seq<Write>, b: seq<Write>)
    ensures ApplyAll(db, a + b) == ApplyAll(ApplyAll(db, a), b)
    decreases |a|
  {
    hide Apply;
    if a == [] {
      assert a + b == b;
    } else {
      assert (a + b)[1..] == a[1..] + b;
      ApplySplit(Apply(db, a[0]), a[1..], b);
    }
  }

  // ----- What a finalization stores -----

  /** The data recorded under a node run, if there is one. */
  predicate RecordedAs(db: Db, nodeRun: Option<string>, data: Data) {
    if nodeRun.Some? && nodeRun.value != "" && nodeRun.value in db.nodeRuns then data == db.nodeRuns[nodeRun.value] else data == map[]
  }

  /** The run row says how the run ended: status, error and, if it completed or waits, the last output. */
  predicate RowSays(db: Db, e: Ending, row: RunRow) {
    && (e.outcome == COMPLETED ==> row.status == "COMPLETED" && row.canonical == "COMPLETED")
    && (e.outcome == WAITING ==> row.status == "WAITING_INPUT" && row.canonical == "WAITING")
    && (e.outcome == FAILED ==> row.status == "FAILED" && row.canonical == "FAILED")
    && (e.outcome == CANCELLED ==> row.status == "CANCELLED" && row.canonical == "FAILED")
    && (if e.outcome == COMPLETED || e.outcome == WAITING then RecordedAs(db, e.lastRun, row.output) else row.output == db.row.output)
    && row.error == if e.outcome == FAILED then Some(ParseReason(e.reason)) else db.row.error
  }

  /** What is stored of a run with this ending. */
  ghost predicate StoredWith(db: Db, e: Ending, key: Option<string>, r: Db) {
    && RowSays(db, e, r.row)
    && (if e.outcome == COMPLETED || e.outcome == WAITING
        then RecordedAs(db, e.lastRun, r.interaction.output)
             && r.interaction.nodeRun == if e.lastRun.Some? && e.lastRun.value != "" then e.lastRun else None
        else r.interaction == db.interaction)
    && r.graph == db.graph && r.nodeRuns == db.nodeRuns
    && (forall k :: key == Some(k) && k != "" ==> k in r.released && r.released[k] == e.outcome)
    && (forall k :: key != Some(k) || k == "" ==> (k in r.released <==> k in db.released)
                                                  && (k in r.released ==> r.released[k] == db.released[k]))
  }

  lemma OutcomeStores(db: Db, e: Ending)
    ensures StoredWith(db, e, None, ApplyAll(db, OutcomeWrites(db, e)))
  {
    hide Policy, ParseReason;
    var ws := OutcomeWrites(db, e);
    var one := Apply(db, ws[0]);
    assert ApplyAll(db, ws) == ApplyAll(one, ws[1..]);
    if |ws| > 1 {
      assert ws[1..][1..] == ws[2..];
      var two := Apply(one, ws[1]);
      assert ApplyAll(one, ws[1..]) == ApplyAll(two, ws[2..]);
      if |ws| > 2 {
        assert ws[2..] == [ws[2]];
        ApplyOne(two, ws[2]);
      }
    }
  }

  lemma ReleaseStores(db: Db, e: Ending, key: Option<string>, r: Db)
    requires StoredWith(db, e, None, r)
    ensures StoredWith(db, e, key, ApplyAll(r, if key.Some? && key.value != "" then [Release(key.value, e.outcome)] else []))
  {
    hide RowSays, RecordedAs;
    if key.Some? && key.value != "" { ApplyOne(r, Release(key.value, e.outcome)); }
  }

  lemma CoreDecides(db: Db, e: Ending, key: Option<string>, r: Db, r': Db)
    requires StoredWith(db, e, key, r) && Core(r) == Core(r')
    ensures StoredWith(db, e, key, r')
  {
  }

  /** However often finalize dies, the row, the interaction and the released key are what the ending and the
      recorded output of the last node run say, and nothing else of the run has changed. */
  lemma FinalizedExactly(db: Db, e: Ending, key: Option<string>, crashes: seq<nat>)
    ensures StoredWith(db, e, key, RetriedFinalize(db, e, key, crashes))
  {
    hide OutcomeWrites, StoredWith, RetriedFinalize;
    var extra := FinalizeRetriesOnlyRepeatEvents(db, e, key, crashes);
    var outcome := ApplyAll(db, OutcomeWrites(db, e));
    OutcomeStores(db, e);
    ReleaseStores(db, e, key, outcome);
    ApplySplit(db, OutcomeWrites(db, e), if key.Some? && key.value != "" then [Release(key.value, e.outcome)] else []);
    CoreDecides(db, e, key, ApplyAll(db, FinalizeWrites(db, e, key)), RetriedFinalize(db, e, key, crashes));
  }

  /** The event a finalization appends. */
  function EventOf(db: Db, e: Ending): Event
    requires e.outcome == COMPLETED || e.outcome == FAILED
  {
    if e.outcome == COMPLETED then FlowCompleted(e.lastNode, LastOutput(db, e.lastRun), Policy(db))
    else FlowFailed(ParseReason(e.reason))
  }

  function Copies(event: Event, n: nat): seq<Event> { seq(n, _ => event) }

  lemma AppendedThree(a: Write, b: Write, c: Write)
    ensures Appended([a, b, c]) == (if a.Append? then [a.event] else []) + (if b.Append? then [b.event] else []) + (if c.Append? then [c.event] else [])
  {
    assert [a, b, c][1..] == [b, c] && [b, c][1..] == [c] && [c][1..] == [];
    assert Appended([c]) == (if c.Append? then [c.event] else []) + Appended([]);
    assert Appended([b, c]) == (if b.Append? then [b.event] else []) + Appended([c]);
  }

  lemma OutcomeAppends(db: Db, e: Ending)
    ensures Appended(OutcomeWrites(db, e)) == if e.outcome == COMPLETED || e.outcome == FAILED then [EventOf(db, e)] else []
  {
    hide LastOutput, Policy, ParseReason;
    var outcome := OutcomeWrites(db, e);
    if |outcome| == 3 {
      AppendedThree(outcome[0], outcome[1], outcome[2]);
      assert outcome == [outcome[0], outcome[1], outcome[2]];
    } else {
      assert |outcome| <= 2;
      assert |outcome| == 2 ==> outcome[1..][1..] == [];
      assert |outcome| == 2 ==> Appended(outcome[1..]) == if outcome[1].Append? then [outcome[1].event] else [];
    }
  }

  lemma FinalizeAppends(db: Db, e: Ending, key: Option<string>)
    ensures Appended(FinalizeWrites(db, e, key)) ==
              if e.outcome == COMPLETED || e.outcome == FAILED then [EventOf(db, e)] else []
    ensures FGraph !in Touched(FinalizeWrites(db, e, key))
  {
    OutcomeAppends(db, e);
    var outcome, ws := OutcomeWrites(db, e), FinalizeWrites(db, e, key);
    assert FGraph !in Touched(ws) by { UntouchedGraph(ws); }
    hide OutcomeWrites, EventOf, Touched;
    assert ws[..|outcome|] == outcome;
    AppendedSplit(ws, |outcome|);
    assert Appended(ws[|outcome|..]) == [];
  }

  lemma UntouchedGraph(ws: seq<Write>)
    requires forall w :: w in ws ==> !w.SaveGraph?
    ensures FGraph !in Touched(ws)
  {
  }

  /** Finalize reads only the graph state and the node runs. */
  lemma SameReads(a: Db, b: Db, e: Ending, key: Option<string>)
    requires a.graph == b.graph && a.nodeRuns == b.nodeRuns
    ensures FinalizeWrites(a, e, key) == FinalizeWrites(b, e, key)
    ensures e.outcome == COMPLETED || e.outcome == FAILED ==> EventOf(a, e) == EventOf(b, e)
  {
    hide ParseReason;
  }

  lemma CutKeepsReads(db: Db, ws: seq<Write>, m: nat)
    requires m <= |ws| && FGraph !in Touched(ws)
    ensures var died := ApplyAll(db, ws[..m]); died.graph == db.graph && died.nodeRuns == db.nodeRuns
  {
    PrefixTouches(db, ws, m);
    hide ApplyAll, Touched;
    assert Same(FGraph, ApplyAll(db, ws[..m]), db);
  }

  lemma CutEvents(db: Db, ws: seq<Write>, m: nat)
    requires m <= |ws| && |Appended(ws)| <= 1
    ensures var died := ApplyAll(db, ws[..m]); died.events == db.events || died.events == db.events + Appended(ws)
  {
    EventsAppended(db, ws[..m]);
    AppendedSplit(ws, m);
    hide ApplyAll, Appended;
    if Appended(ws[..m]) == [] {
      assert db.events + [] == db.events;
    } else {
      assert Appended(ws[m..]) == [] && Appended(ws[..m]) + [] == Appended(ws[..m]);
    }
  }

  /** One attempt cut after n writes, measured against the whole list. */
  lemma CutFinalize(db: Db, e: Ending, key: Option<string>, n: nat)
    ensures var ws := FinalizeWrites(db, e, key);
            var died := ApplyAll(db, Cut(ws, n));
            && FinalizeWrites(died, e, key) == ws
            && Core(ApplyAll(died, ws)) == Core(ApplyAll(db, ws))
            && (e.outcome == WAITING || e.outcome == CANCELLED ==> died.events == db.events)
            && (e.outcome == COMPLETED || e.outcome == FAILED ==>
                  EventOf(died, e) == EventOf(db, e) && (died.events == db.events || died.events == db.events + [EventOf(db, e)]))
  {
    var ws := FinalizeWrites(db, e, key);
    var m := if n <= |ws| then n else |ws|;
    assert Cut(ws, n) == ws[..m];
    FinalizeAppends(db, e, key);
    hide FinalizeWrites, EventOf, ApplyAll, Appended, Touched, Core, Cut;
    DyingThenRedoing(db, ws, n);
    CutKeepsReads(db, ws, m);
    CutEvents(db, ws, m);
    SameReads(ApplyAll(db, ws[..m]), db, e, key);
    assert db.events + [] == db.events;
  }

  /** However often finalize dies and wherever, the run row, graph state, interaction result and
      released key are those of one clean execution; only the event may be repeated, once per
      attempt at most. */
  lemma {:induction false} FinalizeRetriesOnlyRepeatEvents(db: Db, e: Ending, key: Option<string>, crashes: seq<nat>)
    returns (extra: nat)
    ensures Core(RetriedFinalize(db, e, key, crashes)) == Core(ApplyAll(db, FinalizeWrites(db, e, key)))
    ensures extra <= |crashes|
    ensures var events := RetriedFinalize(db, e, key, crashes).events;
            if e.outcome == COMPLETED || e.outcome == FAILED then events == db.events + Copies(EventOf(db, e), extra + 1)
            else events == db.events
    decreases |crashes|
  {
    if crashes == [] {
      extra := 0;
      EventsAppended(db, FinalizeWrites(db, e, key));
      FinalizeAppends(db, e, key);
      if e.outcome == COMPLETED || e.outcome == FAILED {
        assert Copies(EventOf(db, e), 1) == [EventOf(db, e)];
      }
    } else {
      var died := ApplyAll(db, Cut(FinalizeWrites(db, e, key), crashes[0]));
      CutFinalize(db, e, key, crashes[0]);
      var more := FinalizeRetriesOnlyRepeatEvents(died, e, key, crashes[1..]);
      if e.outcome == COMPLETED || e.outcome == FAILED {
        extra := if died.events == db.events then more else more + 1;
        if died.events != db.events {
          assert Copies(EventOf(db, e), more + 2) == [EventOf(db, e)] + Copies(EventOf(db, e), more + 1);
        }
      } else {
        extra := 0;
      }
    }
  }

  const FINALIZE_ATTEMPTS: nat := 5

  /** With Temporal's five attempts, a finalization that succeeds appends one to five copies of
      its event. */
  lemma FinalizeAppendsOneToFive(db: Db, e: Ending, key: Option<string>, crashes: seq<nat>)
    requires e.outcome == COMPLETED || e.outcome == FAILED
    requires |crashes| < FINALIZE_ATTEMPTS
    ensures exists n :: 1 <= n <= FINALIZE_ATTEMPTS &&
              RetriedFinalize(db, e, key, crashes).events == db.events + Copies(EventOf(db, e), n)
  {
    var extra := FinalizeRetriesOnlyRepeatEvents(db, e, key, crashes);
    assert RetriedFinalize(db, e, key, crashes).events == db.events + Copies(EventOf(db, e), extra + 1);
  }
}
