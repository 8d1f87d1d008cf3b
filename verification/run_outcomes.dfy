/** What every processed run looks like, whatever raised and wherever. */
module RunOutcomes {
  import opened Sequences
  import opened Text
  import opened IngestCompleteness
  import opened RunSteps

  // ----- the plans -----

  ghost predicate DistinctSteps(plan: seq<Definition>) {
    forall i, j | 0 <= i < j < |plan| :: plan[i].key != plan[j].key
  }

  ghost predicate Ordered(plan: seq<Definition>) {
    forall i, j | 0 <= i < j < |plan| :: plan[i].order < plan[j].order
  }

  /** Each step depends only on steps before it. */
  ghost predicate Layered(plan: seq<Definition>) {
    forall i, k | 0 <= i < |plan| && k in plan[i].dependsOn :: exists j :: 0 <= j < i && plan[j].key == k
  }

  lemma PlansWellFormed(runType: string)
    ensures DistinctSteps(Plan(runType)) && Ordered(Plan(runType)) && Layered(Plan(runType))
  {
    PlanDistinct(runType);
    PlanLayered(runType);
  }

  lemma PlanDistinct(runType: string)
    ensures DistinctSteps(Plan(runType))
  {
  }

  lemma PlanLayered(runType: string)
    ensures Layered(Plan(runType))
  {
    var plan := Plan(runType);
    forall i, k | 0 <= i < |plan| && k in plan[i].dependsOn ensures exists j :: 0 <= j < i && plan[j].key == k {
      assert plan[i - 1].key == k;
    }
  }

  // ----- after p actions: the first steps succeeded, one may be running, the rest are queued -----

  function After(d: Definition, i: nat, p: nat): Step {
    Step(d.key, d.order, d.dependsOn,
         if p >= 2 * i + 2 then Succeeded else if p == 2 * i + 1 then Running else Queued,
         if p > 2 * i then 1 else 0, None)
  }

  function AllAfter(plan: seq<Definition>, p: nat): (r: seq<Step>)
    ensures |r| == |plan|
  {
    seq(|plan|, i requires 0 <= i < |plan| => After(plan[i], i, p))
  }

  lemma {:induction false} ScriptAt(plan: seq<Definition>, p: nat)
    requires p < 2 * |plan|
    ensures Script(plan)[p] == if p % 2 == 0 then Starts(plan[p / 2].key) else Succeeds(plan[p / 2].key)
  {
    if p < 2 * (|plan| - 1) { ScriptAt(plan[..|plan| - 1], p); }
  }

  lemma IndexOfStep(plan: seq<Definition>, p: nat, i: nat)
    requires DistinctSteps(plan) && i < |plan|
    ensures Index(AllAfter(plan, p), plan[i].key) == Some(i)
  {
    var steps := AllAfter(plan, p);
    IndexFacts(steps, plan[i].key);
    assert steps[i].key == plan[i].key;
  }

  lemma ActedIs(plan: seq<Definition>, p: nat)
    requires DistinctSteps(plan) && p < 2 * |plan|
    ensures Act(AllAfter(plan, p), Script(plan)[p]) == AllAfter(plan, p + 1)
  {
    var i := p / 2;
    ScriptAt(plan, p);
    IndexOfStep(plan, p, i);
    var now, next := AllAfter(plan, p), AllAfter(plan, p + 1);
    forall j | 0 <= j < |plan| ensures next[j] == now[i := next[i]][j] { OthersKeep(plan[j], j, p); }
    assert next == now[i := next[i]];
    StepAdvances(plan[i], i, p);
  }

  lemma OthersKeep(d: Definition, j: nat, p: nat)
    ensures j != p / 2 ==> After(d, j, p + 1) == After(d, j, p)
  {
  }

  lemma StepAdvances(d: Definition, i: nat, p: nat)
    requires i == p / 2
    ensures After(d, i, p + 1) == if p % 2 == 0 then Start(After(d, i, p)) else Succeed(After(d, i, p))
  {
  }

  lemma {:induction false} ReachedIs(plan: seq<Definition>, p: nat)
    requires DistinctSteps(plan) && p <= 2 * |plan|
    ensures Reached(Mapped(Fresh, plan), Script(plan), p) == AllAfter(plan, p)
  {
    if p == 0 {
      MappedAt(Fresh, plan);
    } else {
      ReachedIs(plan, p - 1);
      ActedIs(plan, p - 1);
    }
  }

  // ----- dependencies -----

  ghost predicate SucceededIn(steps: seq<Step>, key: string) {
    exists j :: 0 <= j < |steps| && steps[j].key == key && steps[j].status == Succeeded
  }

  /** No step ever leaves Queued before everything it depends on has succeeded. */
  lemma StartedOnlyWhenReady(runType: string, p: nat, i: nat, dependency: string)
    requires p <= 2 * |Plan(runType)| && i < |Plan(runType)| && dependency in Plan(runType)[i].dependsOn
    ensures var steps := Reached(Mapped(Fresh, Plan(runType)), Script(Plan(runType)), p);
            |steps| == |Plan(runType)| && (steps[i].status != Queued ==> SucceededIn(steps, dependency))
  {
    var plan := Plan(runType);
    PlansWellFormed(runType);
    ReachedIs(plan, p);
    var j :| 0 <= j < i && plan[j].key == dependency;
    assert AllAfter(plan, p)[j].key == dependency;
  }

  // ----- failed runs -----

  /** Where the failure of an exception after p actions is recorded: the running step, else the first. */
  function Blamed(p: nat): nat {
    if p % 2 == 1 then p / 2 else 0
  }

  function FailedAfter(plan: seq<Definition>, p: nat, code: string): (r: seq<Step>)
    requires p <= 2 * |plan| && plan != []
  {
    var steps := AllAfter(plan, p);
    steps[Blamed(p) := Fail(code)(steps[Blamed(p)])]
  }

  lemma NoneFailed(plan: seq<Definition>, p: nat)
    ensures FirstWith(AllAfter(plan, p), Failed).None?
  {
  }

  lemma RunningStep(plan: seq<Definition>, p: nat)
    requires p <= 2 * |plan|
    ensures FirstWith(AllAfter(plan, p), Running) == if p % 2 == 1 then Some(p / 2) else None
  {
    if p % 2 == 1 { assert AllAfter(plan, p)[p / 2].status == Running; }
  }

  lemma LowestIsFirst(plan: seq<Definition>, p: nat)
    requires Ordered(plan) && plan != []
    ensures Lowest(AllAfter(plan, p)) == 0
  {
    var k := Lowest(AllAfter(plan, p));
    assert AllAfter(plan, p)[0].order == plan[0].order;
  }

  lemma WithFailureIs(plan: seq<Definition>, p: nat, code: string)
    requires Ordered(plan) && plan != [] && p <= 2 * |plan|
    ensures WithFailure(AllAfter(plan, p), code) == FailedAfter(plan, p, code)
  {
    NoneFailed(plan, p);
    RunningStep(plan, p);
    LowestIsFirst(plan, p);
  }

  lemma AlreadyFailed(steps: seq<Step>, k: nat, code: string)
    requires k < |steps| && steps[k].status == Failed
    ensures WithFailure(steps, code) == steps
  {
  }

  /** Marking the ingest step before raising gives the same rows as leaving it to the exception handler. */
  lemma StrictFailureIs(plan: seq<Definition>)
    requires plan == Plan("discover")
    ensures var left := At(AllAfter(plan, 3), "ingest_profile_governance", Fail(STRICT_FAILURE));
            WithFailure(left, STRICT_FAILURE) == FailedAfter(plan, 3, STRICT_FAILURE)
  {
    PlansWellFormed("discover");
    IndexOfStep(plan, 3, 1);
    AlreadyFailed(FailedAfter(plan, 3, STRICT_FAILURE), 1, STRICT_FAILURE);
  }

  /** The number of actions taken when the run ended. */
  function Position(runType: string, w: World): nat {
    if Plan(runType) == [] then 0 else Stop(FaultsOf(runType, w), 0, 2 * |Plan(runType)| - 1)
  }

  lemma LeftFails(runType: string, w: World, p: nat, code: string)
    requires Plan(runType) != [] && p <= 2 * |Plan(runType)|
    requires p == 3 && StrictlyFails(runType, w) ==> code == STRICT_FAILURE
    ensures WithFailure(Left(runType, w, p, AllAfter(Plan(runType), p)), code) == FailedAfter(Plan(runType), p, code)
  {
    PlansWellFormed(runType);
    if p == 3 && StrictlyFails(runType, w) {
      StrictFailureIs(Plan(runType));
    } else {
      WithFailureIs(Plan(runType), p, code);
    }
  }

  lemma ExecutedIs(runType: string, w: World)
    requires Plan(runType) != []
    ensures var plan, p := Plan(runType), Position(runType, w);
            && p <= 2 * |plan|
            && Executed(runType, Mapped(Fresh, plan), w)
            == (Left(runType, w, p, AllAfter(plan, p)), if p < 2 * |plan| then FaultsOf(runType, w)(p) else None)
            && (p < 2 * |plan| ==> FaultsOf(runType, w)(p).Some?)
  {
    PlanDistinct(runType);
    ReachedIs(Plan(runType), Position(runType, w));
  }

  lemma StrictFaultHasItsCode(runType: string, w: World)
    requires StrictlyFails(runType, w)
    ensures FaultsOf(runType, w)(3) == Some(STRICT_FAILURE)
  {
  }

  /** Every processed run: all steps succeeded, or exactly the blamed step failed and the others are as they were. */
  lemma OutcomeIs(runType: string, w: World)
    requires Plan(runType) != []
    ensures var plan, p, raised := Plan(runType), Position(runType, w), Raised(runType, Mapped(Fresh, Plan(runType)), w);
            && p <= 2 * |plan|
            && Outcome(runType, Mapped(Fresh, plan), w)
            == if raised.None? then (Succeeded, AllAfter(plan, 2 * |plan|)) else (Failed, FailedAfter(plan, p, raised.value))
  {
    var p, raised := Position(runType, w), Raised(runType, Mapped(Fresh, Plan(runType)), w);
    ExecutedIs(runType, w);
    if p == 3 && StrictlyFails(runType, w) { StrictFaultHasItsCode(runType, w); }
    if raised.Some? { LeftFails(runType, w, p, raised.value); }
  }

  /** A succeeded run has every step succeeded, each attempted once. */
  lemma SucceededRunSucceededSteps(runType: string, w: World, i: nat)
    requires Outcome(runType, Mapped(Fresh, Plan(runType)), w).0 == Succeeded && i < |Plan(runType)|
    ensures var steps := Outcome(runType, Mapped(Fresh, Plan(runType)), w).1;
            |steps| == |Plan(runType)| && steps[i].status == Succeeded && steps[i].attempts == 1
  {
    OutcomeIs(runType, w);
  }

  ghost predicate OnlyFailed(steps: seq<Step>, k: nat) {
    && k < |steps| && steps[k].status == Failed
    && forall i | 0 <= i < |steps| && i != k :: steps[i].status == Succeeded || steps[i].status == Queued
  }

  lemma FailedAfterHasOne(plan: seq<Definition>, p: nat, code: string)
    requires p <= 2 * |plan| && plan != []
    ensures OnlyFailed(FailedAfter(plan, p, code), Blamed(p))
  {
  }

  /** A failed run with a plan has exactly one failed step and none running. */
  lemma FailedRunHasOneFailedStep(runType: string, w: World)
    requires Outcome(runType, Mapped(Fresh, Plan(runType)), w).0 == Failed && Plan(runType) != []
    ensures OnlyFailed(Outcome(runType, Mapped(Fresh, Plan(runType)), w).1, Blamed(Position(runType, w)))
  {
    OutcomeIs(runType, w);
    FailedAfterHasOne(Plan(runType), Position(runType, w), Raised(runType, Mapped(Fresh, Plan(runType)), w).value);
  }

  /** Statuses in step order read Succeeded* Failed Queued*. */
  ghost predicate InOrder(steps: seq<Step>, k: nat) {
    && k < |steps| && steps[k].status == Failed
    && (forall i | 0 <= i < k :: steps[i].status == Succeeded)
    && (forall i | k < i < |steps| :: steps[i].status == Queued)
  }

  lemma FailedAfterInOrderIff(plan: seq<Definition>, p: nat, code: string)
    requires p <= 2 * |plan| && plan != []
    ensures (exists k :: InOrder(FailedAfter(plan, p, code), k)) <==> p % 2 == 1 || p <= 2
  {
    var steps := FailedAfter(plan, p, code);
    if p % 2 == 1 {
      assert InOrder(steps, p / 2);
    } else if p <= 2 {
      assert InOrder(steps, 0);
    } else {
      assert steps[0].status == Failed && steps[1].status == Succeeded;
    }
  }

  /** A failed run reads in order exactly when the exception came in a running step, or before the second step was
      started: later between two steps, the handler blames the first step although it succeeded. */
  lemma FailedRunInOrderIff(runType: string, w: World)
    requires Outcome(runType, Mapped(Fresh, Plan(runType)), w).0 == Failed && Plan(runType) != []
    ensures (exists k :: InOrder(Outcome(runType, Mapped(Fresh, Plan(runType)), w).1, k))
       <==> Position(runType, w) % 2 == 1 || Position(runType, w) <= 2
  {
    OutcomeIs(runType, w);
    FailedAfterInOrderIff(Plan(runType), Position(runType, w), Raised(runType, Mapped(Fresh, Plan(runType)), w).value);
  }

  lemma {:induction false} StopAt(faults: Faults, i: nat, p: nat, n: nat)
    requires i <= p <= n && faults(p).Some? && forall q | i <= q < p :: faults(q).None?
    ensures Stop(faults, i, n) == p
    decreases p - i
  {
    if i < p { StopAt(faults, i + 1, p, n); }
  }

  /** The first step failed although it succeeded before the second. */
  ghost predicate FirstBlamed(steps: seq<Step>) {
    |steps| > 1 && steps[0].status == Failed && steps[1].status == Succeeded
  }

  lemma GapBlamesFirst(plan: seq<Definition>, p: nat, code: string)
    requires 2 < p < 2 * |plan| && p % 2 == 0
    ensures FirstBlamed(FailedAfter(plan, p, code))
  {
  }

  /** For instance: an exception between two steps after the second has started leaves the first step failed and the
      second succeeded. */
  lemma GapFailureBlamesFirst(runType: string, w: World, p: nat)
    requires 2 < p < 2 * |Plan(runType)| && p % 2 == 0
    requires FaultsOf(runType, w)(p).Some? && forall q: nat | q < p :: FaultsOf(runType, w)(q).None?
    ensures Outcome(runType, Mapped(Fresh, Plan(runType)), w).0 == Failed
    ensures FirstBlamed(Outcome(runType, Mapped(Fresh, Plan(runType)), w).1)
  {
    var n := 2 * |Plan(runType)| - 1;
    StopAt(FaultsOf(runType, w), 0, p, n);
    assert Position(runType, w) == p;
    OutcomeIs(runType, w);
    ExecutedIs(runType, w);
    GapBlamesFirst(Plan(runType), p, Raised(runType, Mapped(Fresh, Plan(runType)), w).value);
  }

  /** The bootstrap run that meets an exception just before its third step. */
  lemma BootstrapGapFailure(w: World)
    requires forall p: nat :: w.faults(p) == if p == 4 then Some("raised") else None
    ensures var r := Outcome("semantic_bootstrap", Mapped(Fresh, Plan("semantic_bootstrap")), w);
            r.0 == Failed && !exists k :: InOrder(r.1, k)
  {
    GapFailureBlamesFirst("semantic_bootstrap", w, 4);
    NotInOrder(Outcome("semantic_bootstrap", Mapped(Fresh, Plan("semantic_bootstrap")), w).1);
  }

  lemma NotInOrder(steps: seq<Step>)
    requires FirstBlamed(steps)
    ensures !exists k :: InOrder(steps, k)
  {
  }

  // ----- the statuses of the run itself -----

  /** A run goes from Queued through Running to its final status; only an exception while the success is being
      audited turns Succeeded into Failed. */
  lemma TrailEndsInOutcome(runType: string, steps: seq<Step>, w: World)
    ensures var trail := Trail(runType, steps, w);
            && trail[0] == Running && trail[|trail| - 1] == Outcome(runType, steps, w).0
            && (|trail| == 2 || (trail == [Running, Succeeded, Failed] && w.faults(2 * |Plan(runType)|).Some?))
  {
  }

  // ----- strict discover runs -----

  lemma {:induction false} NoStopIff(faults: Faults, p: nat, n: nat)
    requires p <= n + 1
    ensures Stop(faults, p, n) == n + 1 <==> forall i | p <= i <= n :: faults(i).None?
    decreases n + 1 - p
  {
    if p <= n && faults(p).None? { NoStopIff(faults, p + 1, n); }
  }

  lemma DiscoverFaultless(w: World)
    ensures Stop(FaultsOf("discover", w), 0, 7) == 8 <==>
              (forall p: nat | p <= 7 :: w.faults(p).None?) && w.sources != []
              && IngestFault(w.sources, w.strict, w.maxItems).None?
  {
    var faults := FaultsOf("discover", w);
    NoStopIff(faults, 0, 7);
    if forall i: nat | i <= 7 :: faults(i).None? {
      forall p: nat | p <= 7 ensures w.faults(p).None? { assert faults(p).None?; }
      assert faults(1).None? && faults(3).None?;
    }
  }

  /** A strict discover run succeeds exactly when nothing raised, there are sources, and every source was discovered
      and every file ingested within the quota; what was processed is then all that was found. */
  lemma StrictDiscoverSucceedsIff(w: World)
    requires w.strict
    ensures Outcome("discover", Mapped(Fresh, Plan("discover")), w).0 == Succeeded
       <==> && (forall p: nat | p <= 8 :: w.faults(p).None?)
            && w.sources != [] && (forall s | s in w.sources :: CleanSource(s)) && Found(w.sources) <= w.maxItems
    ensures Outcome("discover", Mapped(Fresh, Plan("discover")), w).0 == Succeeded ==>
              ScannedAll(w.sources, w.maxItems) == Ok(Tally(Found(w.sources), Found(w.sources), 0))
  {
    ExecutedIs("discover", w);
    DiscoverFaultless(w);
    NoFailuresIff(w.sources, w.maxItems);
    if ScannedAll(w.sources, w.maxItems).Ok? { CountsConserved(w.sources, w.maxItems); }
  }
}
