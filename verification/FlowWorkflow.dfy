/** `FlowRunWorkflow`: the durable interpreter, as a machine driven by the recorded results
    of its `execute_node` activities. */
module FlowWorkflow {
  import opened FlowGraph

  datatype StepStatus = SUCCESS | ERROR | NEEDS_INPUT

  /** `ExecuteNodeOutput`, without the node type and resume target the workflow never reads. */
  datatype StepOutput = StepOutput(
    nodeRun: Option<string>, status: StepStatus, terminal: bool,
    next: Option<string>, loopKeys: seq<string>, reason: Option<string>)

  datatype Outcome = COMPLETED | WAITING | FAILED | CANCELLED

  /** The arguments of `_finalize`. */
  datatype Ending = Ending(outcome: Outcome, reason: Option<string>, lastNode: Option<string>, lastRun: Option<string>)

  /** The in-memory fields, and the ending once the loop has decided one. */
  datatype Walk = Walk(stepIndex: nat, current: string, counters: map<string, nat>, ending: Option<Ending>)

  function Get(counters: map<string, nat>, key: string): nat {
    if key in counters then counters[key] else 0
  }

  /** The loop over `step.loop_edge_keys`; it stops at the first counter over the limit. */
  function Count(counters: map<string, nat>, keys: seq<string>, limit: nat): (r: (map<string, nat>, bool))
    decreases |keys|
  {
    if keys == [] then (counters, false)
    else
      var n := Get(counters, keys[0]) + 1;
      if n > limit then (counters[keys[0] := n], true)
      else Count(counters[keys[0] := n], keys[1..], limit)
  }

  /** The body of the loop once the activity has answered. */
  function OnStep(w: Walk, limit: nat, out: StepOutput): Walk {
    var (counters, exceeded) := Count(w.counters, out.loopKeys, limit);
    var after := w.(stepIndex := w.stepIndex + 1, counters := counters);
    var end := (outcome, reason) => after.(ending := Some(Ending(outcome, reason, Some(w.current), out.nodeRun)));
    if exceeded then end(FAILED, Some("EDGE_EVALUATION_ERROR"))
    else if out.status == NEEDS_INPUT then end(WAITING, None)
    else if out.terminal then end(COMPLETED, None)
    else if out.status == ERROR || out.next.None? then
      end(FAILED, if out.reason.Some? && out.reason.value != "" then out.reason else Some("STRUCTURAL_ERROR"))
    else after.(current := out.next.value)
  }

  /** The end of `range(max_steps)`. */
  function Settle(w: Walk, maxSteps: nat): Walk {
    if w.ending.None? && w.stepIndex >= maxSteps
    then w.(ending := Some(Ending(FAILED, Some("MAX_STEPS_EXCEEDED"), Some(w.current), None)))
    else w
  }

  function Begin(start: string, maxSteps: nat): Walk { Settle(Walk(0, start, map[], None), maxSteps) }

  function Advance(w: Walk, maxSteps: nat, limit: nat, out: StepOutput): Walk {
    if w.ending.Some? then w else Settle(OnStep(w, limit, out), maxSteps)
  }

  /** The state after the given results, which is what a replay of the history rebuilds. */
  function Replay(start: string, maxSteps: nat, limit: nat, outs: seq<StepOutput>): Walk {
    if outs == [] then Begin(start, maxSteps)
    else Advance(Replay(start, maxSteps, limit, outs[..|outs|-1]), maxSteps, limit, outs[|outs|-1])
  }

  lemma {:induction false} ReplayStops(start: string, maxSteps: nat, limit: nat, outs: seq<StepOutput>, n: nat)
    requires n <= |outs| && Replay(start, maxSteps, limit, outs[..n]).ending.Some?
    ensures Replay(start, maxSteps, limit, outs) == Replay(start, maxSteps, limit, outs[..n])
    decreases |outs|
  {
    if n == |outs| {
      assert outs[..n] == outs;
    } else {
      var shorter := outs[..|outs|-1];
      assert shorter[..n] == outs[..n];
      ReplayStops(start, maxSteps, limit, shorter, n);
    }
  }

  // ----- The interpreter as the source runs it -----

  class FlowRunWorkflow {
    var stepIndex: nat
    var currentNode: string
    var counters: map<string, nat>
    var outcome: Option<Outcome>

    constructor ()
      ensures stepIndex == 0 && counters == map[] && outcome == None && currentNode == ""
    {
      stepIndex, currentNode, counters, outcome := 0, "", map[], None;
    }

    /** `run` after `prepare_flow_run`, over the results recorded so far. It returns the
        arguments of `_finalize`, or `None` when it awaits the next result. */
    method Run(start: string, maxSteps: nat, limit: nat, outs: seq<StepOutput>) returns (ending: Option<Ending>)
      requires stepIndex == 0 && counters == map[] && outcome == None
      modifies this
      ensures Walk(stepIndex, currentNode, counters, ending) == Replay(start, maxSteps, limit, outs)
      ensures outcome == if ending.Some? then Some(ending.value.outcome) else None
    {
      currentNode := start;
      for step := 0 to maxSteps
        invariant step <= |outs| && stepIndex == step && outcome == None
        invariant Settle(Walk(stepIndex, currentNode, counters, None), maxSteps) == Replay(start, maxSteps, limit, outs[..step])
      {
        if step == |outs| {
          assert outs[..step] == outs;
          return None;
        }
        var out := outs[step];
        ghost var before := Walk(stepIndex, currentNode, counters, None);
        assert outs[..step+1][..step] == outs[..step];
        stepIndex := stepIndex + 1;

        var exceeded := Tally(out.loopKeys, limit);
        ghost var after := OnStep(before, limit, out);
        assert Replay(start, maxSteps, limit, outs[..step+1]) == Settle(after, maxSteps);
        ending := None;
        if exceeded {
          ending := Some(Ending(FAILED, Some("EDGE_EVALUATION_ERROR"), Some(currentNode), out.nodeRun));
        } else if out.status == NEEDS_INPUT {
          ending := Some(Ending(WAITING, None, Some(currentNode), out.nodeRun));
        } else if out.terminal {
          ending := Some(Ending(COMPLETED, None, Some(currentNode), out.nodeRun));
        } else if out.status == ERROR || out.next.None? {
          var reason := if out.reason.Some? && out.reason.value != "" then out.reason else Some("STRUCTURAL_ERROR");
          ending := Some(Ending(FAILED, reason, Some(currentNode), out.nodeRun));
        }
        if ending.Some? {
          outcome := Some(ending.value.outcome);
          ReplayStops(start, maxSteps, limit, outs, step + 1);
          return ending;
        }
        currentNode := out.next.value;
      }
      ending := Some(Ending(FAILED, Some("MAX_STEPS_EXCEEDED"), Some(currentNode), None));
      outcome := Some(FAILED);
      ReplayStops(start, maxSteps, limit, outs, maxSteps);
    }

    /** The counting loop; true when a counter passes the limit. */
    method Tally(keys: seq<string>, limit: nat) returns (exceeded: bool)
      modifies this`counters
      ensures (counters, exceeded) == Count(old(counters), keys, limit)
    {
      for i := 0 to |keys|
        invariant Count(counters, keys[i..], limit) == Count(old(counters), keys, limit)
      {
        counters := counters[keys[i] := Get(counters, keys[i]) + 1];
        assert keys[i..][1..] == keys[i+1..];
        if counters[keys[i]] > limit {
          return true;
        }
      }
      assert keys[|keys|..] == [];
      exceeded := false;
    }
  }

  // ----- What every reachable state keeps -----

  /** How often `key` was reported by the given results. */
  function Reports(outs: seq<StepOutput>, key: string): nat {
    if outs == [] then 0
    else Reports(outs[..|outs|-1], key) + multiset(outs[|outs|-1].loopKeys)[key]
  }

  lemma {:induction false} CountIsExact(counters: map<string, nat>, keys: seq<string>, limit: nat, key: string)
    requires !Count(counters, keys, limit).1
    ensures Get(Count(counters, keys, limit).0, key) == Get(counters, key) + multiset(keys)[key]
    ensures multiset(keys)[key] > 0 ==> Get(Count(counters, keys, limit).0, key) <= limit
    decreases |keys|
  {
    if keys != [] {
      assert keys == [keys[0]] + keys[1..];
      CountIsExact(counters[keys[0] := Get(counters, keys[0]) + 1], keys[1..], limit, key);
    }
  }

  /** While the run goes on, the step index is the number of completed node executions, every
      counter is the number of reports of its key, and none is over the limit. */
  lemma {:induction false} RunningCounters(start: string, maxSteps: nat, limit: nat, outs: seq<StepOutput>, key: string)
    requires Replay(start, maxSteps, limit, outs).ending.None?
    ensures var w := Replay(start, maxSteps, limit, outs);
            w.stepIndex == |outs| < maxSteps && Get(w.counters, key) == Reports(outs, key) <= limit
    decreases |outs|
  {
    if outs != [] {
      var before := outs[..|outs|-1];
      RunningCounters(start, maxSteps, limit, before, key);
      CountIsExact(Replay(start, maxSteps, limit, before).counters, outs[|outs|-1].loopKeys, limit, key);
    }
  }

  lemma BumpKeepsTotal(counters: map<string, nat>, first: string, rest: seq<string>, key: string)
    ensures Get(counters[first := Get(counters, first) + 1], key) + multiset(rest)[key] == Get(counters, key) + multiset([first] + rest)[key]
  {
  }

  /** The total of some counted key passes the limit. */
  ghost predicate Passes(counters: map<string, nat>, keys: seq<string>, limit: nat) {
    exists key :: key in keys && Get(counters, key) + multiset(keys)[key] > limit
  }

  lemma PassesCons(counters: map<string, nat>, keys: seq<string>, limit: nat)
    requires keys != []
    ensures var n := Get(counters, keys[0]) + 1;
            Passes(counters, keys, limit) <==> n > limit || Passes(counters[keys[0] := n], keys[1..], limit)
  {
    var first, rest := keys[0], keys[1..];
    var bumped := counters[first := Get(counters, first) + 1];
    assert keys == [first] + rest;
    forall key ensures Get(bumped, key) + multiset(rest)[key] == Get(counters, key) + multiset(keys)[key] {
      BumpKeepsTotal(counters, first, rest, key);
    }
    assert Get(bumped, first) == Get(counters, first) + 1;
    hide Get;
    if key :| key in keys && Get(counters, key) + multiset(keys)[key] > limit {
      if key !in rest { assert key == first && multiset(rest)[key] == 0; }
    }
    if key :| key in rest && Get(bumped, key) + multiset(rest)[key] > limit { assert key in keys; }
    assert Get(counters, first) + multiset(keys)[first] >= Get(bumped, first);
  }

  /** Counting exceeds the limit exactly when the total of some counted key does. */
  lemma {:induction false} CountExceedsIff(counters: map<string, nat>, keys: seq<string>, limit: nat)
    ensures Count(counters, keys, limit).1 <==> exists key :: key in keys && Get(counters, key) + multiset(keys)[key] > limit
    decreases |keys|
  {
    assert Passes(counters, keys, limit) <==> exists key :: key in keys && Get(counters, key) + multiset(keys)[key] > limit;
    if keys != [] {
      PassesCons(counters, keys, limit);
      CountExceedsIff(counters[keys[0] := Get(counters, keys[0]) + 1], keys[1..], limit);
      hide Get;
    }
  }

  lemma ReportsSnoc(outs: seq<StepOutput>, out: StepOutput, key: string)
    ensures Reports(outs + [out], key) == Reports(outs, key) + multiset(out.loopKeys)[key]
  {
    assert (outs + [out])[..|outs|] == outs;
  }

  /** Some key has been reported more often than the limit. */
  ghost predicate Overlooped(outs: seq<StepOutput>, limit: nat) { exists key :: Reports(outs, key) > limit }

  /** A run is failed for looping exactly when some key has been reported more often than the
      limit by the time of the last step. */
  lemma LoopFailureIff(start: string, maxSteps: nat, limit: nat, outs: seq<StepOutput>, out: StepOutput)
    requires Replay(start, maxSteps, limit, outs).ending.None?
    ensures var w := Replay(start, maxSteps, limit, outs);
            Count(w.counters, out.loopKeys, limit).1 <==> Overlooped(outs + [out], limit)
  {
    var w := Replay(start, maxSteps, limit, outs);
    forall key
      ensures Get(w.counters, key) <= limit
      ensures Reports(outs + [out], key) == Get(w.counters, key) + multiset(out.loopKeys)[key]
    {
      RunningCounters(start, maxSteps, limit, outs, key);
      ReportsSnoc(outs, out, key);
    }
    CountExceedsIff(w.counters, out.loopKeys, limit);
    if Count(w.counters, out.loopKeys, limit).1 {
      var key :| key in out.loopKeys && Get(w.counters, key) + multiset(out.loopKeys)[key] > limit;
      assert Reports(outs + [out], key) > limit;
    } else {
      forall key ensures Reports(outs + [out], key) <= limit {
        assert key in out.loopKeys ==> Get(w.counters, key) + multiset(out.loopKeys)[key] <= limit;
      }
    }
  }

  lemma StepReported(before: Walk, maxSteps: nat, limit: nat, out: StepOutput)
    requires before.ending.None?
    ensures var w, over := Advance(before, maxSteps, limit, out), Count(before.counters, out.loopKeys, limit).1;
            var goesOn := !over && out.status == SUCCESS && !out.terminal && out.next.Some?;
            && (w.ending.None? <==> goesOn && before.stepIndex + 1 < maxSteps)
            && (goesOn ==> w.current == out.next.value)
            && (w.ending.Some? ==> EndsWith(w.ending.value, over, before.current, out))
  {
    hide Count;
  }

  /** What the last result reports decides the ending: a key over the limit in all reports so far, else
      whether the node needs input, was terminal, or failed; a walk that could go on ends only at the
      step limit, and one that goes on goes to the reported node. */
  lemma EndingReported(start: string, maxSteps: nat, limit: nat, outs: seq<StepOutput>, out: StepOutput)
    requires Replay(start, maxSteps, limit, outs).ending.None?
    ensures var before, w, over := Replay(start, maxSteps, limit, outs), Replay(start, maxSteps, limit, outs + [out]), Overlooped(outs + [out], limit);
            var goesOn := !over && out.status == SUCCESS && !out.terminal && out.next.Some?;
            && (w.ending.None? <==> goesOn && |outs| + 1 < maxSteps)
            && (goesOn ==> w.current == out.next.value)
            && (w.ending.Some? ==> EndsWith(w.ending.value, over, before.current, out))
  {
    LoopFailureIff(start, maxSteps, limit, outs, out);
    RunningCounters(start, maxSteps, limit, outs, "");
    assert (outs + [out])[..|outs|] == outs;
    hide Overlooped, Count, Advance, EndsWith;
    StepReported(Replay(start, maxSteps, limit, outs), maxSteps, limit, out);
  }

  ghost predicate EndsWith(e: Ending, over: bool, node: string, out: StepOutput) {
    && (e.outcome == WAITING <==> !over && out.status == NEEDS_INPUT)
    && (e.outcome == COMPLETED <==> !over && out.status != NEEDS_INPUT && out.terminal)
    && e.outcome != CANCELLED
    && (e.outcome == FAILED <==> e.reason.Some?)
    && (e.reason == Some("MAX_STEPS_EXCEEDED") && out.reason != Some("MAX_STEPS_EXCEEDED") ==>
          e.lastNode == out.next && e.lastRun == None)
    && (e.outcome != FAILED || over || out.status == ERROR || out.next.None? ==> e.lastNode == Some(node) && e.lastRun == out.nodeRun)
    && (over ==> e.reason == Some("EDGE_EVALUATION_ERROR"))
    && (!over && !out.terminal && (out.status == ERROR || (out.status == SUCCESS && out.next.None?)) ==>
          e.reason == Some(if out.reason.Some? && out.reason.value != "" then out.reason.value else "STRUCTURAL_ERROR"))
    && (!over && out.status == SUCCESS && !out.terminal && out.next.Some? ==> e.reason == Some("MAX_STEPS_EXCEEDED"))
  }
}
