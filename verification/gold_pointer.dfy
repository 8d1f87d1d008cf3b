/** backend/shared_domain/gold_pointer.py: the published build of a workspace and its history. */
module GoldPointer {
  import opened Sequences
  import opened Text

  datatype Pointer = Pointer(workspaceId: string, buildId: string, snapshotId: string, modelName: string)

  /** latest.json and history.json */
  datatype Files = Files(latest: Option<Pointer>, history: seq<Pointer>)

  function Published(f: Files, p: Pointer): Files {
    Files(Some(p), if f.history == [] || f.history[|f.history| - 1].buildId != p.buildId then f.history + [p] else f.history)
  }

  /** The last history entry with this build id. */
  function Nearest(history: seq<Pointer>, buildId: string): Option<Pointer> {
    if history == [] then None
    else if history[|history| - 1].buildId == buildId then Some(history[|history| - 1])
    else Nearest(history[..|history| - 1], buildId)
  }

  /** The rollback target; "" asks for the entry before the last. */
  function Target(history: seq<Pointer>, buildId: string): Result<Pointer> {
    if history == [] then Err("No gold publish history available for rollback.")
    else if buildId != "" then
      var found := Nearest(history, buildId);
      if found.None? then Err("Requested rollback target was not found in publish history.") else Ok(found.value)
    else Ok(history[if |history| >= 2 then |history| - 2 else |history| - 1])
  }

  function RolledBack(f: Files, target: Pointer): Files
    requires f.history != []
  {
    Files(Some(target), if f.history[|f.history| - 1] != target then f.history + [target] else f.history)
  }

  class PointerStore {
    var latest: Option<Pointer>
    var history: seq<Pointer>

    function State(): Files
      reads this
    {
      Files(latest, history)
    }

    constructor ()
      ensures State() == Files(None, [])
    {
      latest, history := None, [];
    }

    method Publish(p: Pointer)
      modifies this
      ensures State() == Published(old(State()), p)
    {
      latest := Some(p);
      if history == [] || history[|history| - 1].buildId != p.buildId { history := history + [p]; }
    }

    method Rollback(buildId: string) returns (r: Result<Pointer>)
      modifies this
      ensures r == Target(old(history), buildId)
      ensures State() == if r.Ok? then RolledBack(old(State()), r.value) else old(State())
    {
      if history == [] { return Err("No gold publish history available for rollback."); }
      var target: Option<Pointer> := None;
      if buildId != "" {
        target := Find(buildId);
        if target.None? { return Err("Requested rollback target was not found in publish history."); }
      } else if |history| >= 2 {
        target := Some(history[|history| - 2]);
      } else {
        target := Some(history[|history| - 1]);
      }
      latest := target;
      if history[|history| - 1] != target.value { history := history + [target.value]; }
      r := Ok(target.value);
    }

    /** The search through the reversed history. */
    method Find(buildId: string) returns (target: Option<Pointer>)
      ensures target == Nearest(history, buildId)
    {
      var i := |history|;
      assert history[..i] == history;
      while i > 0
        invariant i <= |history| && Nearest(history[..i], buildId) == Nearest(history, buildId)
      {
        i := i - 1;
        assert history[..i + 1][..i] == history[..i];
        if history[i].buildId == buildId { return Some(history[i]); }
      }
      target := None;
    }
  }

  // ----- every run of publishes and rollbacks -----

  datatype Action = Publish(p: Pointer) | Rollback(buildId: string)

  function Step(f: Files, a: Action): Files {
    match a
    case Publish(p) => Published(f, p)
    case Rollback(buildId) =>
      var target := Target(f.history, buildId);
      if target.Ok? then RolledBack(f, target.value) else f
  }

  function Run(actions: seq<Action>): Files {
    if actions == [] then Files(None, []) else Step(Run(actions[..|actions| - 1]), actions[|actions| - 1])
  }

  /** Adjacent build ids differ; the latest pointer is absent with the history, else shares its last build id. */
  ghost predicate Consistent(f: Files) {
    && (forall i | 0 < i < |f.history| :: f.history[i - 1].buildId != f.history[i].buildId)
    && (f.history == [] <==> f.latest.None?)
    && (f.history != [] ==> f.latest.value.buildId == f.history[|f.history| - 1].buildId)
  }

  /** A rollback by build id succeeds exactly when the history has that build, and restores its last entry. */
  lemma {:induction false} NearestFacts(history: seq<Pointer>, buildId: string)
    ensures Nearest(history, buildId).None? <==> forall p | p in history :: p.buildId != buildId
    ensures Nearest(history, buildId).Some? ==>
              exists k :: 0 <= k < |history| && history[k] == Nearest(history, buildId).value && history[k].buildId == buildId
                          && forall j | k < j < |history| :: history[j].buildId != buildId
  {
    if history != [] {
      var front, last := history[..|history| - 1], history[|history| - 1];
      NearestFacts(front, buildId);
      assert forall p :: p in history <==> p in front || p == last by { FrontMultiset(history); }
      if last.buildId == buildId {
        assert history[|history| - 1] == last && last in history;
      } else if Nearest(front, buildId).Some? {
        var k :| 0 <= k < |front| && front[k] == Nearest(front, buildId).value && front[k].buildId == buildId
                 && forall j | k < j < |front| :: front[j].buildId != buildId;
        assert history[k] == front[k];
        assert forall j | k < j < |history| :: history[j].buildId != buildId;
        assert history[k] in history;
      } else {
        forall p | p in history ensures p.buildId != buildId { assert p in front || p == last; }
      }
    }
  }

  lemma RollbackKeepsConsistent(f: Files, buildId: string)
    requires Consistent(f)
    ensures Consistent(Step(f, Rollback(buildId)))
  {
    if Target(f.history, buildId).Ok? {
      RolledBackConsistent(f, buildId, Target(f.history, buildId).value);
    }
  }

  /** The target is the last entry, or has another build id. */
  lemma TargetIsLastOrOther(f: Files, buildId: string)
    requires Consistent(f) && Target(f.history, buildId).Ok?
    ensures var p, last := Target(f.history, buildId).value, f.history[|f.history| - 1];
            p == last || p.buildId != last.buildId
  {
    if buildId != "" { NearestFacts(f.history, buildId); }
  }

  lemma RolledBackConsistent(f: Files, buildId: string, target: Pointer)
    requires Consistent(f) && Target(f.history, buildId) == Ok(target)
    ensures Consistent(RolledBack(f, target))
  {
    TargetIsLastOrOther(f, buildId);
  }

  lemma {:induction false} RunConsistent(actions: seq<Action>)
    ensures Consistent(Run(actions))
  {
    if actions != [] {
      RunConsistent(actions[..|actions| - 1]);
      if actions[|actions| - 1].Rollback? { RollbackKeepsConsistent(Run(actions[..|actions| - 1]), actions[|actions| - 1].buildId); }
    }
  }

  /** The history is append-only, growing by at most one entry an action. */
  lemma HistoryOnlyGrows(f: Files, a: Action)
    ensures f.history <= Step(f, a).history && |Step(f, a).history| <= |f.history| + 1
  {
  }

  lemma {:induction false} HistoryIsPrefix(actions: seq<Action>, k: nat)
    requires k <= |actions|
    ensures Run(actions[..k]).history <= Run(actions).history
  {
    if k == |actions| {
      assert actions[..k] == actions;
    } else {
      assert actions[..|actions| - 1][..k] == actions[..k];
      HistoryIsPrefix(actions[..|actions| - 1], k);
      HistoryOnlyGrows(Run(actions[..|actions| - 1]), actions[|actions| - 1]);
    }
  }

  /** A rollback only ever restores something in the history. */
  lemma TargetInHistory(history: seq<Pointer>, buildId: string)
    requires Target(history, buildId).Ok?
    ensures Target(history, buildId).value in history
  {
    if buildId != "" { NearestFacts(history, buildId); }
  }

  /** Nothing is ever live or in the history that was not published. */
  lemma {:induction false} OnlyPublished(actions: seq<Action>)
    ensures forall p | p in Run(actions).history :: Publish(p) in actions
    ensures Run(actions).latest.Some? ==> Publish(Run(actions).latest.value) in actions
  {
    if actions != [] {
      var front, last := actions[..|actions| - 1], actions[|actions| - 1];
      OnlyPublished(front);
      FrontMultiset(actions);
      if last.Rollback? && Target(Run(front).history, last.buildId).Ok? { TargetInHistory(Run(front).history, last.buildId); }
      match last
      case Publish(q) =>
        forall p | p in Run(actions).history ensures Publish(p) in actions { assert p in Run(front).history || p == q; }
      case Rollback(buildId) =>
        var target := Target(Run(front).history, buildId);
        forall p | p in Run(actions).history ensures Publish(p) in actions {
          assert p in Run(front).history || target == Ok(p);
        }
    }
  }

  /** Two default rollbacks lead back to the last history entry, as a new entry when there is more than one. */
  lemma TwoRollbacksReturn(f: Files)
    requires Consistent(f) && f.history != []
    ensures var after, last := Step(Step(f, Rollback("")), Rollback("")), f.history[|f.history| - 1];
            && after.latest == Some(last)
            && after.history == if |f.history| == 1 then f.history else f.history + [f.history[|f.history| - 2], last]
  {
    if |f.history| >= 2 {
      assert f.history[|f.history| - 2].buildId != f.history[|f.history| - 1].buildId;
    }
  }

  /** Two default rollbacks give back what is live exactly when what is live is the last history entry. */
  lemma TwoRollbacksRestoreIff(f: Files)
    requires Consistent(f) && f.history != []
    ensures Step(Step(f, Rollback("")), Rollback("")).latest == f.latest
       <==> f.latest == Some(f.history[|f.history| - 1])
  {
    TwoRollbacksReturn(f);
  }

  /** That fails right after a publish exactly when it publishes the last build again, under another snapshot or model. */
  lemma RepublishedIff(f: Files, p: Pointer)
    requires Consistent(f)
    ensures (var g := Published(f, p); Step(Step(g, Rollback("")), Rollback("")).latest != g.latest)
       <==> f.history != [] && f.history[|f.history| - 1].buildId == p.buildId && f.history[|f.history| - 1] != p
  {
    TwoRollbacksRestoreIff(Published(f, p));
  }

  /** Republishing the live build with another snapshot changes the latest pointer only: two rollbacks give back the
      snapshot first published. */
  lemma RepublishNotRemembered(a: Pointer, b: Pointer, snapshotId: string)
    requires a.buildId != b.buildId
    ensures var f := Run([Publish(a), Publish(b), Publish(b.(snapshotId := snapshotId))]);
            f.latest == Some(b.(snapshotId := snapshotId)) && f.history == [a, b]
            && Step(Step(f, Rollback("")), Rollback("")).latest == Some(b)
  {
    var p, q, r := Publish(a), Publish(b), Publish(b.(snapshotId := snapshotId));
    assert [p, q, r][..2] == [p, q] && [p, q][..1] == [p] && [p][..0] == [];
    assert Run([]) == Files(None, []);
    assert Run([p]) == Files(Some(a), [a]);
    assert Run([p, q]) == Files(Some(b), [a, b]);
    TwoRollbacksReturn(Run([p, q, r]));
  }
}
