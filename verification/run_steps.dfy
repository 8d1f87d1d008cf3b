/** backend/workers/run_processor.py: one run, its steps, and what an exception at any point leaves behind. */
module RunSteps {
  import opened Sequences
  import opened Text
  import opened IngestCompleteness

  datatype Status = Queued | Running | Succeeded | Failed

  datatype Definition = Definition(key: string, order: int, dependsOn: seq<string>)

  datatype Step = Step(key: string, order: int, dependsOn: seq<string>, status: Status, attempts: nat,
                       errorCode: Option<string>)

  const STRICT_FAILURE := "strict_ingest_completeness_failed"

  /** RUN_STEP_DEFINITIONS.get(run_type, ()) */
  function Plan(runType: string): seq<Definition> {
    if runType == "discover" then
      [Definition("discover_inventory", 10, []),
       Definition("ingest_profile_governance", 20, ["discover_inventory"]),
       Definition("semantic_drift_gate", 30, ["ingest_profile_governance"]),
       Definition("finalize_output", 40, ["semantic_drift_gate"])]
    else if runType == "semantic_bootstrap" then
      [Definition("collect_catalog", 10, []),
       Definition("build_manifest_candidate", 20, ["collect_catalog"]),
       Definition("finalize_output", 30, ["build_manifest_candidate"])]
    else if runType == "materialize_refresh" then
      [Definition("collect_inputs", 10, []),
       Definition("refresh_materializations", 20, ["collect_inputs"]),
       Definition("finalize_output", 30, ["refresh_materializations"])]
    else []
  }

  function Fresh(d: Definition): Step {
    Step(d.key, d.order, d.dependsOn, Queued, 0, None)
  }

  // ----- step transitions; rows are looked up by key, an unknown key changes nothing -----

  function Index(steps: seq<Step>, key: string): Option<nat> {
    if steps == [] then None
    else if steps[|steps| - 1].key == key then Some(|steps| - 1)
    else Index(steps[..|steps| - 1], key)
  }

  lemma {:induction false} IndexFacts(steps: seq<Step>, key: string)
    ensures Index(steps, key).Some? ==> Index(steps, key).value < |steps| && steps[Index(steps, key).value].key == key
    ensures Index(steps, key).None? ==> forall i | 0 <= i < |steps| :: steps[i].key != key
  {
    if steps != [] { IndexFacts(steps[..|steps| - 1], key); }
  }

  function At(steps: seq<Step>, key: string, change: Step -> Step): seq<Step> {
    IndexFacts(steps, key);
    var i := Index(steps, key);
    if i.Some? then steps[i.value := change(steps[i.value])] else steps
  }

  function Start(s: Step): Step { s.(status := Running, attempts := s.attempts + 1, errorCode := None) }

  function Succeed(s: Step): Step { s.(status := Succeeded, errorCode := None) }

  function Fail(code: string): Step -> Step {
    (s: Step) => s.(status := Failed, errorCode := Some(code))
  }

  /** The first step with this status. */
  function FirstWith(steps: seq<Step>, status: Status): (r: Option<nat>)
    ensures r.Some? ==> r.value < |steps| && steps[r.value].status == status
    ensures r.Some? ==> forall i | 0 <= i < r.value :: steps[i].status != status
    ensures r.None? ==> forall i | 0 <= i < |steps| :: steps[i].status != status
  {
    if steps == [] then None
    else
      var front := FirstWith(steps[..|steps| - 1], status);
      if front.Some? then front
      else if steps[|steps| - 1].status == status then Some(|steps| - 1)
      else None
  }

  /** The first step of least order. */
  function Lowest(steps: seq<Step>): (k: nat)
    requires steps != []
    ensures k < |steps| && forall i | 0 <= i < |steps| :: steps[k].order <= steps[i].order
    ensures forall i | 0 <= i < k :: steps[k].order < steps[i].order
  {
    if |steps| == 1 then 0
    else
      var k := Lowest(steps[..|steps| - 1]);
      if steps[|steps| - 1].order < steps[k].order then |steps| - 1 else k
  }

  /** _ensure_failed_run_step */
  function WithFailure(steps: seq<Step>, code: string): seq<Step> {
    if steps == [] || FirstWith(steps, Failed).Some? then steps
    else
      var k := FirstWith(steps, Running).GetOr(Lowest(steps));
      steps[k := Fail(code)(steps[k])]
  }

  // ----- a plan played out: each step is started and then succeeded -----

  datatype Action = Starts(key: string) | Succeeds(key: string)

  function Act(steps: seq<Step>, a: Action): seq<Step> {
    match a
    case Starts(key) => At(steps, key, Start)
    case Succeeds(key) => At(steps, key, Succeed)
  }

  function Script(plan: seq<Definition>): (r: seq<Action>)
    ensures |r| == 2 * |plan|
  {
    if plan == [] then []
    else
      var key := plan[|plan| - 1].key;
      Script(plan[..|plan| - 1]) + [Starts(key), Succeeds(key)]
  }

  /** The steps after p actions of the script. */
  function Reached(steps: seq<Step>, script: seq<Action>, p: nat): seq<Step>
    requires p <= |script|
  {
    if p == 0 then steps else Act(Reached(steps, script, p - 1), script[p - 1])
  }

  /** What raises where: faults(p) is the error code of an exception after p actions. */
  type Faults = nat -> Option<string>

  /** The first position from p to n at which something raises, n + 1 when nothing does. */
  function Stop(faults: Faults, p: nat, n: nat): (r: nat)
    requires p <= n + 1
    ensures p <= r <= n + 1 && (r <= n ==> faults(r).Some?)
    decreases n + 1 - p
  {
    if p == n + 1 || faults(p).Some? then p else Stop(faults, p + 1, n)
  }

  lemma StopLater(faults: Faults, p: nat, n: nat)
    requires p <= n && faults(p).None?
    ensures Stop(faults, p, n) == Stop(faults, p + 1, n)
  {
  }

  // ----- what a discover run meets -----

  /** The exceptions of a discover run: its own checks come on top of the given faults. */
  function DiscoverFaults(faults: Faults, sources: seq<Source>, strict: bool, maxItems: int): Faults {
    (p: nat) =>
      if faults(p).Some? then faults(p)
      else if p == 1 && sources == [] then Some("discover_run_requires_at_least_one_active_source")
      else if p == 3 then IngestFault(sources, strict, maxItems)
      else None
  }

  function IngestFault(sources: seq<Source>, strict: bool, maxItems: int): Option<string> {
    match ScannedAll(sources, maxItems)
    case Err(e) => Some(e)
    case Ok(t) => if strict && t.failures > 0 then Some(STRICT_FAILURE) else None
  }

  /** The outside world of one run. */
  datatype World = World(faults: Faults, sources: seq<Source>, strict: bool, maxItems: int, refreshEnabled: bool)

  /** Every exception a run of this type meets. */
  function FaultsOf(runType: string, w: World): Faults {
    if runType == "discover" then DiscoverFaults(w.faults, w.sources, w.strict, w.maxItems)
    else if runType == "semantic_bootstrap" then w.faults
    else if runType == "materialize_refresh" then
      (p: nat) => if p == 0 && !w.refreshEnabled then Some("materialized_refresh_disabled") else w.faults(p)
    else w.faults
  }

  /** A strict discover run with failures marks its ingest step failed before it raises. */
  predicate StrictlyFails(runType: string, w: World) {
    && runType == "discover" && w.faults(3).None? && w.strict
    && ScannedAll(w.sources, w.maxItems).Ok? && ScannedAll(w.sources, w.maxItems).value.failures > 0
  }

  function Left(runType: string, w: World, p: nat, reached: seq<Step>): seq<Step> {
    if p == 3 && StrictlyFails(runType, w) then At(reached, "ingest_profile_governance", Fail(STRICT_FAILURE))
    else reached
  }

  /** The steps and the exception of _execute_run. */
  function Executed(runType: string, steps: seq<Step>, w: World): (seq<Step>, Option<string>) {
    var script, faults := Script(Plan(runType)), FaultsOf(runType, w);
    if script == [] then (steps, Some("unsupported_run_type"))
    else
      var p := Stop(faults, 0, |script| - 1);
      (Left(runType, w, p, Reached(steps, script, p)), if p < |script| then faults(p) else None)
  }

  /** The exception of a whole run: the audit record of a success may still raise. */
  function Raised(runType: string, steps: seq<Step>, w: World): Option<string> {
    var executed := Executed(runType, steps, w).1;
    if executed.Some? then executed else w.faults(2 * |Plan(runType)|)
  }

  /** A processed run: its status and its steps. */
  function Outcome(runType: string, steps: seq<Step>, w: World): (Status, seq<Step>) {
    var left, raised := Executed(runType, steps, w).0, Raised(runType, steps, w);
    if raised.None? then (Succeeded, left) else (Failed, WithFailure(left, raised.value))
  }

  /** The statuses assigned on the way. */
  function Trail(runType: string, steps: seq<Step>, w: World): seq<Status> {
    [Running] + (if Executed(runType, steps, w).1.None? then [Succeeded] else [])
              + (if Raised(runType, steps, w).Some? then [Failed] else [])
  }

  lemma DiscoverScript()
    ensures Script(Plan("discover"))
         == [Starts("discover_inventory"), Succeeds("discover_inventory"),
             Starts("ingest_profile_governance"), Succeeds("ingest_profile_governance"),
             Starts("semantic_drift_gate"), Succeeds("semantic_drift_gate"),
             Starts("finalize_output"), Succeeds("finalize_output")]
  {
    assert Plan("discover")[..3][..2][..1] == Plan("discover")[..1];
  }

  lemma BootstrapScript()
    ensures Script(Plan("semantic_bootstrap"))
         == [Starts("collect_catalog"), Succeeds("collect_catalog"),
             Starts("build_manifest_candidate"), Succeeds("build_manifest_candidate"),
             Starts("finalize_output"), Succeeds("finalize_output")]
  {
    assert Plan("semantic_bootstrap")[..2][..1] == Plan("semantic_bootstrap")[..1];
  }

  lemma RefreshScript()
    ensures Script(Plan("materialize_refresh"))
         == [Starts("collect_inputs"), Succeeds("collect_inputs"),
             Starts("refresh_materializations"), Succeeds("refresh_materializations"),
             Starts("finalize_output"), Succeeds("finalize_output")]
  {
    assert Plan("materialize_refresh")[..2][..1] == Plan("materialize_refresh")[..1];
  }

  // ----- the code -----

  class Run {
    const runType: string
    var status: Status
    var steps: seq<Step>
    /** every status assigned so far */
    ghost var trail: seq<Status>

    constructor (runType: string)
      ensures this.runType == runType && status == Queued && steps == [] && trail == []
    {
      this.runType := runType;
      status, steps, trail := Queued, [], [];
    }

    method Assign(s: Status)
      modifies this
      ensures status == s && trail == old(trail) + [s] && steps == old(steps)
    {
      status := s;
      trail := trail + [s];
    }

    /** _ensure_run_steps */
    method EnsureRunSteps()
      modifies this`steps
      ensures steps == if old(steps) != [] then old(steps) else Mapped(Fresh, Plan(runType))
    {
      if steps != [] { return; }
      var definitions := Plan(runType);
      var rows: seq<Step> := [];
      for i := 0 to |definitions|
        invariant steps == old(steps) && rows == Mapped(Fresh, definitions[..i])
      {
        MappedNext(Fresh, definitions, i);
        rows := rows + [Fresh(definitions[i])];
      }
      assert definitions[..|definitions|] == definitions;
      steps := rows;
    }

    method StartStep(key: string)
      modifies this`steps
      ensures steps == Act(old(steps), Starts(key))
    {
      IndexFacts(steps, key);
      var row := Index(steps, key);
      if row.None? { return; }
      steps := steps[row.value := steps[row.value].(status := Running, attempts := steps[row.value].attempts + 1,
                                                   errorCode := None)];
    }

    method SucceedStep(key: string)
      modifies this`steps
      ensures steps == Act(old(steps), Succeeds(key))
    {
      IndexFacts(steps, key);
      var row := Index(steps, key);
      if row.None? { return; }
      steps := steps[row.value := steps[row.value].(status := Succeeded, errorCode := None)];
    }

    method FailStep(key: string, code: string)
      modifies this`steps
      ensures steps == At(old(steps), key, Fail(code))
    {
      IndexFacts(steps, key);
      var row := Index(steps, key);
      if row.None? { return; }
      steps := steps[row.value := steps[row.value].(status := Failed, errorCode := Some(code))];
    }

    /** _ensure_failed_run_step */
    method EnsureFailedRunStep(code: string)
      modifies this`steps
      ensures steps == WithFailure(old(steps), code)
    {
      if steps == [] { return; }
      if FirstWith(steps, Failed).Some? { return; }
      var running := FirstWith(steps, Running);
      var k := if running.Some? then running.value else Lowest(steps);
      steps := steps[k := steps[k].(status := Failed, errorCode := Some(code))];
    }

    /** The body of the ingest step; a strict failure marks the step before it raises. */
    method IngestAll(w: World) returns (raised: Option<string>)
      requires runType == "discover"
      modifies this`steps
      ensures raised == FaultsOf(runType, w)(3) && steps == Left(runType, w, 3, old(steps))
    {
      if w.faults(3).Some? { return w.faults(3); }
      var counts := IngestSources(w.sources, w.maxItems);
      if counts.Err? { return Some(counts.error); }
      if counts.value.failures > 0 && w.strict {
        FailStep("ingest_profile_governance", STRICT_FAILURE);
        return Some(STRICT_FAILURE);
      }
      raised := None;
    }

    method ProcessDiscoverRun(w: World) returns (raised: Option<string>)
      requires runType == "discover"
      modifies this`steps
      ensures (steps, raised) == Executed(runType, old(steps), w)
    {
      DiscoverScript();
      ghost var was, script := steps, Script(Plan(runType));
      ghost var faults := FaultsOf(runType, w);
      raised := DiscoverInventory(w);
      if raised.Some? { return; }
      raised := IngestAll(w);
      if raised.Some? { return; }
      SucceedStep("ingest_profile_governance");
      assert steps == Reached(was, script, 4) && Stop(faults, 0, 7) == Stop(faults, 4, 7);
      raised := GateAndFinalize(w, was);
    }

    /** The last two steps of a discover run. */
    /** Up to the start of the second step. */
    method DiscoverInventory(w: World) returns (raised: Option<string>)
      requires runType == "discover" && |Script(Plan(runType))| == 8
      modifies this`steps
      ensures var p := Stop(FaultsOf(runType, w), 0, 7);
              if raised.Some? then
                p < 3 && steps == Reached(old(steps), Script(Plan(runType)), p) && raised == FaultsOf(runType, w)(p)
              else p == Stop(FaultsOf(runType, w), 3, 7) && steps == Reached(old(steps), Script(Plan(runType)), 3)
    {
      DiscoverScript();
      ghost var was, script := steps, Script(Plan(runType));
      ghost var faults := FaultsOf(runType, w);
      if w.faults(0).Some? { return w.faults(0); }
      StartStep("discover_inventory");
      StopLater(faults, 0, 7);
      assert steps == Reached(was, script, 1) && Stop(faults, 0, 7) == Stop(faults, 1, 7);
      if w.faults(1).Some? { return w.faults(1); }
      if w.sources == [] { return Some("discover_run_requires_at_least_one_active_source"); }
      SucceedStep("discover_inventory");
      assert steps == Reached(was, script, 2) && Stop(faults, 0, 7) == Stop(faults, 2, 7);
      if w.faults(2).Some? { return w.faults(2); }
      StartStep("ingest_profile_governance");
      assert steps == Reached(was, script, 3) && Stop(faults, 0, 7) == Stop(faults, 3, 7);
      raised := None;
    }

    method GateAndFinalize(w: World, ghost was: seq<Step>) returns (raised: Option<string>)
      requires runType == "discover" && |Script(Plan(runType))| == 8 && steps == Reached(was, Script(Plan(runType)), 4)
      modifies this`steps
      ensures var p := Stop(FaultsOf(runType, w), 4, 7);
              && steps == Reached(was, Script(Plan(runType)), p)
              && raised == if p < 8 then FaultsOf(runType, w)(p) else None
    {
      DiscoverScript();
      ghost var script, faults := Script(Plan(runType)), FaultsOf(runType, w);
      if w.faults(4).Some? { return w.faults(4); }
      StartStep("semantic_drift_gate");
      StopLater(faults, 4, 7);
      assert steps == Reached(was, script, 5) && Stop(faults, 4, 7) == Stop(faults, 5, 7);
      if w.faults(5).Some? { return w.faults(5); }
      SucceedStep("semantic_drift_gate");
      assert steps == Reached(was, script, 6) && Stop(faults, 4, 7) == Stop(faults, 6, 7);
      if w.faults(6).Some? { return w.faults(6); }
      StartStep("finalize_output");
      assert steps == Reached(was, script, 7) && Stop(faults, 4, 7) == Stop(faults, 7, 7);
      if w.faults(7).Some? { return w.faults(7); }
      SucceedStep("finalize_output");
      assert steps == Reached(was, script, 8) && Stop(faults, 4, 7) == Stop(faults, 8, 7);
      raised := None;
    }

    method ProcessSemanticBootstrapRun(w: World) returns (raised: Option<string>)
      requires runType == "semantic_bootstrap"
      modifies this`steps
      ensures (steps, raised) == Executed(runType, old(steps), w)
    {
      BootstrapScript();
      ghost var was, script := steps, Script(Plan(runType));
      var faults := w.faults;
      raised := CollectCatalog(w);
      if raised.Some? { return; }
      if faults(3).Some? { return faults(3); }
      SucceedStep("build_manifest_candidate");
      assert steps == Reached(was, script, 4) && Stop(faults, 0, 5) == Stop(faults, 4, 5);
      if faults(4).Some? { return faults(4); }
      StartStep("finalize_output");
      assert steps == Reached(was, script, 5) && Stop(faults, 0, 5) == Stop(faults, 5, 5);
      if faults(5).Some? { return faults(5); }
      SucceedStep("finalize_output");
      assert steps == Reached(was, script, 6) && Stop(faults, 0, 5) == Stop(faults, 6, 5);
      raised := None;
    }

    /** Up to the start of the second step. */
    method CollectCatalog(w: World) returns (raised: Option<string>)
      requires runType == "semantic_bootstrap" && |Script(Plan(runType))| == 6
      modifies this`steps
      ensures var p := Stop(w.faults, 0, 5);
              if raised.Some? then
                p < 3 && steps == Reached(old(steps), Script(Plan(runType)), p) && raised == w.faults(p)
              else p == Stop(w.faults, 3, 5) && steps == Reached(old(steps), Script(Plan(runType)), 3)
    {
      BootstrapScript();
      ghost var was, script := steps, Script(Plan(runType));
      var faults := w.faults;
      if faults(0).Some? { return faults(0); }
      StartStep("collect_catalog");
      StopLater(faults, 0, 5);
      assert steps == Reached(was, script, 1) && Stop(faults, 0, 5) == Stop(faults, 1, 5);
      if faults(1).Some? { return faults(1); }
      SucceedStep("collect_catalog");
      assert steps == Reached(was, script, 2) && Stop(faults, 0, 5) == Stop(faults, 2, 5);
      if faults(2).Some? { return faults(2); }
      StartStep("build_manifest_candidate");
      assert steps == Reached(was, script, 3) && Stop(faults, 0, 5) == Stop(faults, 3, 5);
      raised := None;
    }

    method ProcessMaterializedRefreshRun(w: World) returns (raised: Option<string>)
      requires runType == "materialize_refresh"
      modifies this`steps
      ensures (steps, raised) == Executed(runType, old(steps), w)
    {
      RefreshScript();
      ghost var was, script := steps, Script(Plan(runType));
      var faults := FaultsOf(runType, w);
      if !w.refreshEnabled { return Some("materialized_refresh_disabled"); }
      if w.faults(0).Some? { return w.faults(0); }
      StartStep("collect_inputs");
      StopLater(faults, 0, 5);
      assert steps == Reached(was, script, 1) && Stop(faults, 0, 5) == Stop(faults, 1, 5);
      if faults(1).Some? { return faults(1); }
      SucceedStep("collect_inputs");
      assert steps == Reached(was, script, 2) && Stop(faults, 0, 5) == Stop(faults, 2, 5);
      if faults(2).Some? { return faults(2); }
      StartStep("refresh_materializations");
      assert steps == Reached(was, script, 3) && Stop(faults, 0, 5) == Stop(faults, 3, 5);
      if faults(3).Some? { return faults(3); }
      SucceedStep("refresh_materializations");
      assert steps == Reached(was, script, 4) && Stop(faults, 0, 5) == Stop(faults, 4, 5);
      if faults(4).Some? { return faults(4); }
      StartStep("finalize_output");
      assert steps == Reached(was, script, 5) && Stop(faults, 0, 5) == Stop(faults, 5, 5);
      if faults(5).Some? { return faults(5); }
      SucceedStep("finalize_output");
      assert steps == Reached(was, script, 6) && Stop(faults, 0, 5) == Stop(faults, 6, 5);
      raised := None;
    }

    /** _execute_run */
    method ExecuteRun(w: World) returns (raised: Option<string>)
      modifies this`steps
      ensures (steps, raised) == Executed(runType, old(steps), w)
    {
      if runType == "discover" {
        raised := ProcessDiscoverRun(w);
      } else if runType == "semantic_bootstrap" {
        raised := ProcessSemanticBootstrapRun(w);
      } else if runType == "materialize_refresh" {
        raised := ProcessMaterializedRefreshRun(w);
      } else {
        raised := Some("unsupported_run_type");
      }
    }

    /** What happens to a run whose steps are there. */
    method RunToEnd(w: World)
      modifies this
      ensures (status, steps) == Outcome(runType, old(steps), w)
      ensures trail == old(trail) + Trail(runType, old(steps), w)[1..]
    {
      ghost var rows := steps;
      var raised := ExecuteRun(w);
      if raised.None? {
        Assign(Succeeded);
        raised := w.faults(2 * |Plan(runType)|);
      }
      assert raised == Raised(runType, rows, w) && steps == Executed(runType, rows, w).0;
      if raised.Some? {
        EnsureFailedRunStep(raised.value);
        Assign(Failed);
      }
    }

    /** _process_queued_run */
    method ProcessQueuedRun(w: World)
      requires status == Queued
      modifies this
      ensures var rows := if old(steps) != [] then old(steps) else Mapped(Fresh, Plan(runType));
              && (status, steps) == Outcome(runType, rows, w)
              && trail == old(trail) + Trail(runType, rows, w)
    {
      Assign(Running);
      EnsureRunSteps();
      RunToEnd(w);
    }
  }
}
