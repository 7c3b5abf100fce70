/** Resolving a run's execution plan through a cache that may lose entries and whose calls may
    fail, by any number of resolutions whose steps interleave. */
module PlanCache {
  import opened FlowGraph
  import opened GraphCompiler

  datatype Row = Row(hash: string, snapshot: Snapshot)

  /** What the repository holds for a run: the snapshot it names, and that of its flow version. */
  datatype FlowRun = FlowRun(named: Option<Row>, ofVersion: Option<Row>)

  function RowOf(run: FlowRun): Option<Row> { if run.named.Some? then run.named else run.ofVersion }

  /** Plans as cached values: dumped, loaded, and those a resolution takes for an absent value. */
  datatype Codec<!J> = Codec(dump: Plan -> J, load: J -> Plan, falsy: J -> bool)

  datatype Pc = Starting | Missed | Compiled(plan: Plan) | Resolved(plan: Plan) | NotFound | Refused(error: CompileError) | Raised

  datatype State<J> = State(silent: bool, runs: seq<FlowRun>, pcs: seq<Pc>, store: map<string, J>)

  /** A call may fail; a failing `set` may yet have stored its value. */
  datatype Action = Get(r: nat, fails: bool) | Compile(r: nat) | Set(r: nat, stored: bool, fails: bool) | Expire(hash: string)

  function Initial<J>(silent: bool, runs: seq<FlowRun>): State<J> {
    State(silent, runs, seq(|runs|, _ => Starting), map[])
  }

  predicate Enabled<J>(s: State<J>, a: Action) {
    match a
    case Get(r, _) => r < |s.pcs| == |s.runs| && s.pcs[r].Starting?
    case Compile(r) => r < |s.pcs| == |s.runs| && s.pcs[r].Missed? && RowOf(s.runs[r]).Some?
    case Set(r, stored, fails) =>
      r < |s.pcs| == |s.runs| && s.pcs[r].Compiled? && RowOf(s.runs[r]).Some? && (!fails ==> stored)
    case Expire(_) => true
  }

  /** The wrapper of the cache adapter: a failure raises, or in silent mode stands for `False`. */
  function Looked<J>(s: State<J>, codec: Codec<J>, hash: string, fails: bool): Pc {
    if fails then (if s.silent then Missed else Raised)
    else if hash in s.store && !codec.falsy(s.store[hash]) then Resolved(codec.load(s.store[hash]))
    else Missed
  }

  ghost function Apply<J>(s: State<J>, codec: Codec<J>, a: Action): (t: State<J>)
    requires Enabled(s, a)
    ensures t.silent == s.silent && t.runs == s.runs && |t.pcs| == |s.pcs|
  {
    match a
    case Get(r, fails) =>
      var row := RowOf(s.runs[r]);
      s.(pcs := s.pcs[r := if row.None? then NotFound else Looked(s, codec, row.value.hash, fails)])
    case Compile(r) =>
      var row := RowOf(s.runs[r]).value;
      var outcome := Outcome(row.snapshot, row.hash);
      s.(pcs := s.pcs[r := if outcome.Ok? then Compiled(outcome.plan) else Refused(outcome.error)])
    case Set(r, stored, fails) =>
      var hash, plan := RowOf(s.runs[r]).value.hash, s.pcs[r].plan;
      s.(pcs := s.pcs[r := if fails && !s.silent then Raised else Resolved(plan)],
         store := if stored then s.store[hash := codec.dump(plan)] else s.store)
    case Expire(hash) => s.(store := s.store - {hash})
  }

  ghost predicate Possible<J>(s: State<J>, codec: Codec<J>, actions: seq<Action>)
    decreases |actions|
  {
    actions == [] || (Enabled(s, actions[0]) && Possible(Apply(s, codec, actions[0]), codec, actions[1..]))
  }

  ghost function Run<J>(s: State<J>, codec: Codec<J>, actions: seq<Action>): State<J>
    requires Possible(s, codec, actions)
    decreases |actions|
  {
    if actions == [] then s else Run(Apply(s, codec, actions[0]), codec, actions[1..])
  }

  // ----- What a resolution should give -----

  ghost function Fresh(run: FlowRun): Compiled
    requires RowOf(run).Some?
  {
    Outcome(RowOf(run).value.snapshot, RowOf(run).value.hash)
  }

  /** The compiler's outcome for the snapshot the run names or, if it names none, for its version's. */
  ghost predicate Gives(run: FlowRun, outcome: GraphCompiler.Compiled) {
    || (run.named.Some? && outcome == Outcome(run.named.value.snapshot, run.named.value.hash))
    || (run.named.None? && run.ofVersion.Some? && outcome == Outcome(run.ofVersion.value.snapshot, run.ofVersion.value.hash))
  }

  /** A resolution that has a plan has the one a fresh compilation gives, one that was refused has the
      compiler's error, and one that found nothing belongs to a run without a snapshot. */
  ghost predicate FreshAt(run: FlowRun, pc: Pc) {
    match pc
    case Resolved(plan) => Gives(run, Ok(plan))
    case Compiled(plan) => Gives(run, Ok(plan))
    case Refused(error) => Gives(run, Err(error))
    case NotFound => run.named.None? && run.ofVersion.None?
    case _ => true
  }

  ghost predicate AllFresh<J>(s: State<J>) {
    |s.pcs| == |s.runs| && forall r :: 0 <= r < |s.runs| ==> FreshAt(s.runs[r], s.pcs[r])
  }

  ghost predicate RoundTrips<J>(codec: Codec<J>) { forall p :: codec.load(codec.dump(p)) == p }

  ghost predicate Served<J>(codec: Codec<J>, run: FlowRun) {
    RowOf(run).Some? && Fresh(run).Ok? && !codec.falsy(codec.dump(Fresh(run).plan))
  }

  predicate SameHash(run: FlowRun, other: FlowRun) {
    RowOf(run).Some? && RowOf(other).Some? && RowOf(run).value.hash == RowOf(other).value.hash
  }

  /** Runs whose snapshots carry one hash compile to one plan. */
  ghost predicate HashesDecide<J>(codec: Codec<J>, runs: seq<FlowRun>) {
    forall i, j :: 0 <= i < |runs| && 0 <= j < |runs| && Served(codec, runs[i]) && SameHash(runs[i], runs[j]) ==>
      Fresh(runs[j]) == Fresh(runs[i])
  }

  // ----- Every schedule -----

  /** What is stored under a hash was dumped from the plan of a run with that hash. */
  ghost predicate Stored<J>(s: State<J>, codec: Codec<J>, hash: string)
    requires hash in s.store
  {
    exists i :: 0 <= i < |s.runs| && RowOf(s.runs[i]).Some? && RowOf(s.runs[i]).value.hash == hash &&
      Fresh(s.runs[i]).Ok? && s.store[hash] == codec.dump(Fresh(s.runs[i]).plan)
  }

  ghost predicate StoreOk<J>(s: State<J>, codec: Codec<J>) { forall h :: h in s.store ==> Stored(s, codec, h) }

  lemma StoreKept<J>(s: State<J>, codec: Codec<J>, a: Action)
    requires AllFresh(s) && StoreOk(s, codec) && Enabled(s, a)
    ensures StoreOk(Apply(s, codec, a), codec)
  {
    hide Outcome, RoundTrips;
    var t := Apply(s, codec, a);
    forall h | h in t.store ensures Stored(t, codec, h) {
      if a.Set? && a.stored && h == RowOf(s.runs[a.r]).value.hash {
        assert FreshAt(s.runs[a.r], s.pcs[a.r]);
      } else {
        assert Stored(s, codec, h);
        var i :| 0 <= i < |s.runs| && RowOf(s.runs[i]).Some? && RowOf(s.runs[i]).value.hash == h &&
          Fresh(s.runs[i]).Ok? && s.store[h] == codec.dump(Fresh(s.runs[i]).plan);
      }
    }
  }

  lemma StepStaysFresh<J>(s: State<J>, codec: Codec<J>, a: Action)
    requires AllFresh(s) && StoreOk(s, codec) && Enabled(s, a)
    requires RoundTrips(codec) && HashesDecide(codec, s.runs)
    ensures AllFresh(Apply(s, codec, a))
  {
    hide Outcome, StoreOk;
    var t := Apply(s, codec, a);
    forall r | 0 <= r < |t.runs| ensures FreshAt(t.runs[r], t.pcs[r]) {
      assert FreshAt(s.runs[r], s.pcs[r]);
      if a.Get? && a.r == r && RowOf(s.runs[r]).Some? { LookedIsFresh(s, codec, r, a.fails); }
    }
  }

  lemma LookedIsFresh<J>(s: State<J>, codec: Codec<J>, r: nat, fails: bool)
    requires StoreOk(s, codec) && RoundTrips(codec) && HashesDecide(codec, s.runs)
    requires r < |s.runs| && RowOf(s.runs[r]).Some?
    ensures FreshAt(s.runs[r], Looked(s, codec, RowOf(s.runs[r]).value.hash, fails))
  {
    hide Outcome;
    var hash := RowOf(s.runs[r]).value.hash;
    if Looked(s, codec, hash, fails).Resolved? {
      assert Stored(s, codec, hash);
      var i :| 0 <= i < |s.runs| && RowOf(s.runs[i]).Some? && RowOf(s.runs[i]).value.hash == hash &&
        Fresh(s.runs[i]).Ok? && s.store[hash] == codec.dump(Fresh(s.runs[i]).plan);
      assert Served(codec, s.runs[i]);
    }
  }

  lemma {:induction false} RunStaysFresh<J>(s: State<J>, codec: Codec<J>, actions: seq<Action>)
    requires AllFresh(s) && StoreOk(s, codec) && Possible(s, codec, actions)
    requires RoundTrips(codec) && HashesDecide(codec, s.runs)
    ensures AllFresh(Run(s, codec, actions))
    decreases |actions|
  {
    hide AllFresh, StoreOk, RoundTrips, HashesDecide, Enabled;
    if actions != [] {
      StoreKept(s, codec, actions[0]);
      StepStaysFresh(s, codec, actions[0]);
      RunStaysFresh(Apply(s, codec, actions[0]), codec, actions[1..]);
    }
  }

  /** Given that plans survive their serialization, every schedule of resolutions, expiries and
      failing calls gives every run the plan of a fresh compilation exactly when hashes decide
      plans. */
  lemma EveryScheduleIsFreshIff<J>(silent: bool, runs: seq<FlowRun>, codec: Codec<J>)
    requires RoundTrips(codec)
    ensures HashesDecide(codec, runs) <==>
      forall actions :: Possible(Initial(silent, runs), codec, actions) ==> AllFresh(Run(Initial(silent, runs), codec, actions))
  {
    hide RoundTrips, Possible, Run, Fresh;
    var start: State<J> := Initial(silent, runs);
    if HashesDecide(codec, runs) {
      forall actions | Possible(start, codec, actions) ensures AllFresh(Run(start, codec, actions)) {
        RunStaysFresh(start, codec, actions);
      }
    } else {
      var i, j :| 0 <= i < |runs| && 0 <= j < |runs| && Served(codec, runs[i]) && SameHash(runs[i], runs[j]) &&
        Fresh(runs[j]) != Fresh(runs[i]);
      var actions := StaleSchedule(silent, runs, codec, i, j);
    }
  }

  /** A run served the plan of another with the same hash. */
  lemma StaleSchedule<J>(silent: bool, runs: seq<FlowRun>, codec: Codec<J>, i: nat, j: nat) returns (actions: seq<Action>)
    requires RoundTrips(codec) && i < |runs| && j < |runs| && Served(codec, runs[i])
    requires SameHash(runs[i], runs[j]) && Fresh(runs[j]) != Fresh(runs[i])
    ensures Possible(Initial(silent, runs), codec, actions)
    ensures !AllFresh(Run(Initial(silent, runs), codec, actions))
  {
    hide Outcome;
    var s0: State<J> := Initial(silent, runs);
    actions := [Get(i, false), Compile(i), Set(i, true, false), Get(j, false)];
    var s1 := Apply(s0, codec, actions[0]);
    var s2 := Apply(s1, codec, actions[1]);
    var s3 := Apply(s2, codec, actions[2]);
    var s4 := Apply(s3, codec, actions[3]);
    assert !FreshAt(s4.runs[j], s4.pcs[j]);
    hide Enabled, Apply;
    assert actions[1..][1..] == [actions[2], actions[3]] && actions[1..] == [actions[1], actions[2], actions[3]];
    First(s3, codec, actions[3], []);
    First(s2, codec, actions[2], [actions[3]]);
    First(s1, codec, actions[1], [actions[2], actions[3]]);
    First(s0, codec, actions[0], actions[1..]);
  }

  lemma First<J>(s: State<J>, codec: Codec<J>, a: Action, rest: seq<Action>)
    requires Enabled(s, a) && Possible(Apply(s, codec, a), codec, rest)
    ensures Possible(s, codec, [a] + rest) && Run(s, codec, [a] + rest) == Run(Apply(s, codec, a), codec, rest)
  {
    assert ([a] + rest)[1..] == rest;
  }
}
