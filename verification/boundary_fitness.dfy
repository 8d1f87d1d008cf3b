/** The import-cycle detector of tools/check_boundary_fitness.py: a three-state depth-first search. */
module BoundaryFitness {
  import opened Text

  type Graph = map<string, set<string>>

  // ----- what the detector is for -----

  /** An import from u to v; self-imports are ignored by the search. */
  predicate Edge(g: Graph, u: string, v: string) {
    u in g && v in g[u] && u != v
  }

  ghost predicate Walk(g: Graph, p: seq<string>) {
    forall i | 0 <= i < |p| - 1 :: Edge(g, p[i], p[i + 1])
  }

  ghost predicate ClosedWalk(g: Graph, p: seq<string>) {
    |p| >= 2 && p[0] == p[|p| - 1] && Walk(g, p)
  }

  ghost predicate Cyclic(g: Graph) {
    exists p :: ClosedWalk(g, p)
  }

  ghost predicate Distinct(s: seq<string>) {
    forall i, j | 0 <= i < j < |s| :: s[i] != s[j]
  }

  /** A closed walk that passes through every node but the first only once. */
  ghost predicate SimpleCycle(g: Graph, p: seq<string>) {
    ClosedWalk(g, p) && Distinct(p[..|p| - 1])
  }

  /** The edge whose discovery completed a reported cycle: its last step. */
  ghost function ClosingEdge(p: seq<string>): (string, string)
    requires |p| >= 2
  {
    (p[|p| - 2], p[|p| - 1])
  }

  ghost predicate ClosedBy(p: seq<string>, e: (string, string)) {
    |p| >= 2 && ClosingEdge(p) == e
  }

  /** The reports are real cycles, `back` is the set of their closing edges, and no edge closes two of them. */
  ghost predicate ReportsFor(g: Graph, cycles: seq<seq<string>>, back: set<(string, string)>) {
    if cycles == [] then back == {}
    else
      var front, cycle := cycles[..|cycles| - 1], cycles[|cycles| - 1];
      SimpleCycle(g, cycle) && ClosingEdge(cycle) in back && ReportsFor(g, front, back - {ClosingEdge(cycle)})
  }

  /** ReportsFor read position by position. */
  lemma {:induction false} ReportsForFacts(g: Graph, cycles: seq<seq<string>>, back: set<(string, string)>)
    requires ReportsFor(g, cycles, back)
    ensures |back| == |cycles|
    ensures forall k | 0 <= k < |cycles| :: SimpleCycle(g, cycles[k]) && ClosingEdge(cycles[k]) in back
    ensures forall e | e in back :: exists k :: 0 <= k < |cycles| && ClosedBy(cycles[k], e)
  {
    if cycles != [] {
      var front, cycle := cycles[..|cycles| - 1], cycles[|cycles| - 1];
      ReportsForFacts(g, front, back - {ClosingEdge(cycle)});
      forall e | e in back ensures exists k :: 0 <= k < |cycles| && ClosedBy(cycles[k], e) {
        if e != ClosingEdge(cycle) {
          assert e in back - {ClosingEdge(cycle)};
          var k :| 0 <= k < |front| && ClosedBy(front[k], e);
          assert ClosedBy(cycles[k], e);
        } else {
          assert ClosedBy(cycles[|front|], e);
        }
      }
    }
  }

  /** Every finished node comes after the targets of all its edges, except along edges that close a report. */
  ghost predicate FinishOrder(g: Graph, finished: seq<string>, back: set<(string, string)>) {
    forall i, v | 0 <= i < |finished| && Edge(g, finished[i], v) && (finished[i], v) !in back :: v in finished[..i]
  }

  function Report(cycle: seq<string>): string {
    "Cycle detected: " + JoinWith(" -> ", cycle)
  }

  function Reports(cycles: seq<seq<string>>): seq<string> {
    seq(|cycles|, i requires 0 <= i < |cycles| => Report(cycles[i]))
  }

  // ----- consequences of the finishing order -----

  /** Off the reported edges, positions in the finishing order strictly fall along a walk. */
  lemma {:induction false} WalkDescends(g: Graph, finished: seq<string>, back: set<(string, string)>,
                                        p: seq<string>, a: nat)
    requires FinishOrder(g, finished, back) && Distinct(finished)
    requires Walk(g, p) && |p| >= 2 && a < |finished| && finished[a] == p[0]
    requires forall i | 0 <= i < |p| - 1 :: (p[i], p[i + 1]) !in back
    ensures p[|p| - 1] in finished[..a]
  {
    assert Edge(g, p[0], p[1]) && (p[0], p[1]) !in back;
    assert p[1] in finished[..a];
    if |p| > 2 {
      var b :| 0 <= b < a && finished[b] == p[1];
      var q := p[1..];
      forall i | 0 <= i < |q| - 1 ensures Edge(g, q[i], q[i + 1]) && (q[i], q[i + 1]) !in back {
        assert q[i] == p[i + 1] && q[i + 1] == p[i + 2];
      }
      WalkDescends(g, finished, back, q, b);
    }
  }

  /** Completeness: every closed walk of the graph uses an edge that closes a report. */
  lemma ReportsMeetEveryCycle(g: Graph, finished: seq<string>, back: set<(string, string)>, p: seq<string>)
    requires FinishOrder(g, finished, back) && Distinct(finished)
    requires forall u :: u in g ==> u in finished
    requires ClosedWalk(g, p)
    ensures exists i | 0 <= i < |p| - 1 :: (p[i], p[i + 1]) in back
  {
    if forall i | 0 <= i < |p| - 1 :: (p[i], p[i + 1]) !in back {
      assert Edge(g, p[0], p[1]);
      var a :| 0 <= a < |finished| && finished[a] == p[0];
      WalkDescends(g, finished, back, p, a);
      assert false;
    }
  }

  /** Soundness and completeness together: something is reported iff the graph has a cycle. */
  lemma ReportedIffCyclic(g: Graph, finished: seq<string>, cycles: seq<seq<string>>, back: set<(string, string)>)
    requires FinishOrder(g, finished, back) && Distinct(finished)
    requires forall u :: u in g ==> u in finished
    requires ReportsFor(g, cycles, back)
    ensures cycles != [] <==> Cyclic(g)
  {
    ReportsForFacts(g, cycles, back);
    if cycles != [] { assert ClosedWalk(g, cycles[0]) by { assert SimpleCycle(g, cycles[0]); } }
    if p :| ClosedWalk(g, p) {
      ReportsMeetEveryCycle(g, finished, back, p);
    }
  }

  /** With no report the reversed finishing order lists every importer before what it imports. */
  lemma ReverseFinishIsTopological(g: Graph, finished: seq<string>, i: nat, v: string)
    requires FinishOrder(g, finished, {}) && i < |finished| && Edge(g, finished[i], v)
    ensures exists j | 0 <= j < i :: finished[j] == v
  {
    assert (finished[i], v) !in {};
    assert v in finished[..i];
    var j :| 0 <= j < i && finished[..i][j] == v;
    assert finished[j] == v;
  }

  // ----- the search -----

  /** edges and violations, as filled by the import scans before the cycle search runs */
  class CheckState {
    const edges: Graph
    var violations: seq<string>

    constructor (edges: Graph, violations: seq<string>)
      ensures this.edges == edges && this.violations == violations
    {
      this.edges := edges;
      this.violations := violations;
    }
  }

  /** The elements of a sequence, last one outermost. */
  ghost function Elements(s: seq<string>): set<string> {
    if s == [] then {} else Elements(s[..|s| - 1]) + {s[|s| - 1]}
  }

  /** A path without repetition. */
  ghost predicate SimplePath(g: Graph, s: seq<string>) {
    s == [] || (
      var front, last := s[..|s| - 1], s[|s| - 1];
      SimplePath(g, front) && last !in Elements(front) && (front != [] ==> Edge(g, front[|front| - 1], last)))
  }

  /** FinishOrder without repetition, as it grows. */
  ghost predicate Finishing(g: Graph, finished: seq<string>, back: set<(string, string)>) {
    finished == [] || (
      var front, last := finished[..|finished| - 1], finished[|finished| - 1];
      Finishing(g, front, back) && last !in Elements(front)
      && forall v | Edge(g, last, v) && (last, v) !in back :: v in Elements(front))
  }

  lemma {:induction false} ElementsFacts(s: seq<string>)
    ensures forall x :: x in s <==> x in Elements(s)
  {
    if s != [] {
      ElementsFacts(s[..|s| - 1]);
      assert s == s[..|s| - 1] + [s[|s| - 1]];
    }
  }

  lemma {:induction false} SimplePathFacts(g: Graph, s: seq<string>)
    requires SimplePath(g, s)
    ensures Distinct(s) && Walk(g, s)
  {
    if s != [] {
      SimplePathFacts(g, s[..|s| - 1]);
      ElementsFacts(s[..|s| - 1]);
      forall i | 0 <= i < |s| - 1 ensures s[i] != s[|s| - 1] { assert s[i] in s[..|s| - 1]; }
    }
  }

  lemma {:induction false} FinishingFacts(g: Graph, finished: seq<string>, back: set<(string, string)>)
    requires Finishing(g, finished, back)
    ensures Distinct(finished) && FinishOrder(g, finished, back)
  {
    if finished != [] {
      var front, last := finished[..|finished| - 1], finished[|finished| - 1];
      FinishingFacts(g, front, back);
      ElementsFacts(front);
      forall i | 0 <= i < |front| ensures finished[i] != last { assert finished[i] in front; }
      forall i, v | 0 <= i < |finished| && Edge(g, finished[i], v) && (finished[i], v) !in back
        ensures v in finished[..i]
      {
        if i < |front| { assert front[i] == finished[i] && front[..i] == finished[..i]; }
      }
    }
  }

  lemma {:induction false} FinishingGrows(g: Graph, finished: seq<string>,
                                          back: set<(string, string)>, more: set<(string, string)>)
    requires Finishing(g, finished, back) && back <= more
    ensures Finishing(g, finished, more)
  {
    if finished != [] { FinishingGrows(g, finished[..|finished| - 1], back, more); }
  }

  lemma Push(s: seq<string>, x: string)
    ensures (s + [x])[..|s + [x]| - 1] == s
    ensures Elements(s + [x]) == Elements(s) + {x}
  {
    assert (s + [x])[..|s|] == s;
  }

  /** A search in progress: what the code keeps, and beside it the finishing order, reports and closing edges. */
  datatype Progress = Progress(edges: Graph, nodes: set<string>, visiting: set<string>, visited: set<string>,
                               stack: seq<string>, finished: seq<string>, cycles: seq<seq<string>>,
                               back: set<(string, string)>)
  {
    ghost predicate Consistent() {
      && SimplePath(edges, stack) && visiting == Elements(stack)
      && Finishing(edges, finished, back) && visited == Elements(finished)
      && visiting !! visited && visiting <= nodes && visited <= nodes
      && (forall e | e in back :: e.0 in visiting || e.0 in visited)
      && ReportsFor(edges, cycles, back)
    }

    /** The edge that leads from the top of the stack to node is there and has closed no report yet. */
    ghost predicate Arrives(node: string) {
      node in nodes && (stack != [] ==> Edge(edges, stack[|stack| - 1], node) && (stack[|stack| - 1], node) !in back)
    }

    ghost function Open(): set<string> {
      nodes - visiting - visited
    }
  }

  ghost predicate Consistent(p: Progress) { p.Consistent() }

  type Search = p: Progress | Consistent(p) ghost witness Start(map[])

  ghost function Start(g: Graph): Progress {
    Progress(g, Nodes(g), {}, {}, [], [], [], {})
  }

  ghost function Nodes(g: Graph): set<string> {
    g.Keys + set u, v | u in g && v in g[u] :: v
  }

  class CycleSearch {
    const state: CheckState
    var visiting: set<string>
    var visited: set<string>
    var stack: seq<string>
    ghost var progress: Search
    ghost const before: seq<string>

    constructor (state: CheckState)
      ensures this.state == state && before == state.violations
      ensures Valid() && progress == Start(state.edges)
    {
      this.state := state;
      visiting, visited, stack := {}, {}, [];
      before := state.violations;
      progress := Start(state.edges);
    }

    ghost predicate Valid()
      reads this, state
    {
      && progress.edges == state.edges && progress.nodes == Nodes(state.edges) && progress.visiting == visiting
      && progress.visited == visited && progress.stack == stack
      && state.violations == before + Reports(progress.cycles)
    }

    /** stack.index(node) */
    method IndexOf(node: string) returns (start: nat)
      requires node in stack
      ensures start < |stack| && stack[start] == node && node !in stack[..start]
    {
      start := 0;
      while stack[start] != node
        invariant start < |stack| && node !in stack[..start]
        decreases |stack| - start
      {
        start := start + 1;
      }
    }

    method Dfs(node: string)
      requires Valid() && progress.Arrives(node)
      modifies this, state`violations
      ensures Valid() && Returned(old(progress), progress)
      ensures Handled(old(progress), progress, node)
      decreases progress.Open(), 1
    {
      if node in visiting {
        ReportCycle(node);
      } else if node !in visited {
        Visit(node);
      }
    }

    /** The branch for a node that is already on the stack. */
    method ReportCycle(node: string)
      requires Valid() && progress.Arrives(node) && node in visiting
      modifies this`progress, state`violations
      ensures Valid() && Returned(old(progress), progress)
      ensures Handled(old(progress), progress, node)
    {
      ElementsFacts(stack);
      var start := IndexOf(node);
      var cycle := stack[start..] + [node];
      ReportsAppend(before, progress.cycles, cycle);
      progress := WithReport(progress, start, node);
      state.violations := state.violations + [Report(cycle)];
    }

    /** The branch for a node met for the first time. */
    method Visit(node: string)
      requires Valid() && progress.Arrives(node) && node !in visiting && node !in visited
      modifies this, state`violations
      ensures Valid() && Returned(old(progress), progress)
      ensures Handled(old(progress), progress, node)
      decreases progress.Open(), 0
    {
      visiting := visiting + {node};
      stack := stack + [node];
      progress := Entered(progress, node);
      Explore(node);
      LeaveUndoesEnter(old(stack), old(visiting), node);
      progress := Left(old(progress), progress, node);
      stack := stack[..|stack| - 1];
      visiting := visiting - {node};
      visited := visited + {node};
    }

    /** The loop over the sorted targets of the node on top of the stack. */
    method Explore(node: string)
      requires Valid() && stack != [] && stack[|stack| - 1] == node
      requires forall v :: (node, v) !in progress.back
      modifies this, state`violations
      ensures Valid() && Returned(old(progress), progress)
      ensures Explored(old(progress), progress, node)
      decreases progress.Open(), 2
    {
      var targets := Targets(state.edges, node);
      TargetsDistinct(state.edges, node);
      ghost var done: set<string> := {};
      for i := 0 to |targets|
        invariant Valid() && Returned(old(progress), progress)
        invariant DoneUpTo(targets, i, done)
        invariant ExploredUpTo(old(progress), progress, node, done)
      {
        var next := targets[i];
        if next != node {
          ghost var last := progress;
          NextArrives(old(progress), progress, node, next, done);
          Dfs(next);
          OneTargetMore(old(progress), last, progress, node, next, done);
        } else {
          SelfTarget(old(progress), progress, node, done);
        }
        OneMoreDone(targets, i, done);
        done := done + {next};
      }
      AllTargetsDone(old(progress), progress, done, node);
    }
  }

  /** A call gives back the stack it was given; visits, finishes and reports are never taken back. */
  ghost predicate Returned(was: Progress, now: Progress) {
    && now.edges == was.edges && now.nodes == was.nodes && now.stack == was.stack && now.visiting == was.visiting
    && was.visited <= now.visited && was.back <= now.back
  }

  /** After dfs(node): node is visited or the edge to it is reported, and every other new report is
      closed by an edge out of a node that was not on the stack. */
  ghost predicate Handled(was: Progress, now: Progress, node: string) {
    && (node in now.visited || (was.stack != [] && (was.stack[|was.stack| - 1], node) in now.back))
    && (forall e | e in now.back - was.back ::
          e.0 !in was.visiting || (was.stack != [] && e == (was.stack[|was.stack| - 1], node)))
  }

  /** The loop over node's targets has dealt with those in done, and every new report is closed by an edge
      out of node into done, or out of a node that was not on the stack. */
  ghost predicate ExploredUpTo(was: Progress, now: Progress, node: string, done: set<string>) {
    && (forall v | v in done :: v == node || v in now.visited || (node, v) in now.back)
    && (forall v | (node, v) in now.back :: v in done)
    && (forall e | e in now.back - was.back :: e.0 !in was.visiting || e.0 == node)
  }

  ghost predicate Explored(was: Progress, now: Progress, node: string) {
    && (forall v | Edge(now.edges, node, v) :: v in now.visited || (node, v) in now.back)
    && (forall e | e in now.back - was.back :: e.0 !in was.visiting || e.0 == node)
  }

  /** detect_cycles: searches from every module in name order; earlier violations stay in front. */
  method DetectCycles(state: CheckState)
    returns (ghost cycles: seq<seq<string>>, ghost back: set<(string, string)>, ghost finished: seq<string>)
    modifies state`violations
    ensures state.violations == old(state.violations) + Reports(cycles)
    ensures ReportsFor(state.edges, cycles, back)
    ensures Distinct(finished) && FinishOrder(state.edges, finished, back)
    ensures forall u :: u in state.edges ==> u in finished
    ensures state.violations == old(state.violations) <==> !Cyclic(state.edges)
  {
    var search := new CycleSearch(state);
    var roots := SortedOf(state.edges.Keys);
    RootsAreModules(state.edges);
    for i := 0 to |roots|
      invariant search.state == state && search.before == old(state.violations) && fresh(search)
      invariant search.Valid() && search.stack == []
      invariant forall j | 0 <= j < i :: roots[j] in search.visited
    {
      search.Dfs(roots[i]);
    }
    cycles, back, finished := search.progress.cycles, search.progress.back, search.progress.finished;
    AllRootsVisited(state.edges, search.progress);
    assert cycles != [] ==> |Reports(cycles)| > 0;
  }

  lemma RootsAreModules(g: Graph)
    ensures forall j | 0 <= j < |SortedOf(g.Keys)| :: SortedOf(g.Keys)[j] in Nodes(g)
  {
    SortedOfContents(g.Keys);
  }

  lemma AllRootsVisited(g: Graph, p: Search)
    requires p.edges == g && forall j | 0 <= j < |SortedOf(g.Keys)| :: SortedOf(g.Keys)[j] in p.visited
    ensures ReportsFor(g, p.cycles, p.back)
    ensures Distinct(p.finished) && FinishOrder(g, p.finished, p.back)
    ensures forall u :: u in g ==> u in p.finished
    ensures p.cycles != [] <==> Cyclic(g)
  {
    var roots := SortedOf(g.Keys);
    SortedOfContents(g.Keys);
    ElementsFacts(p.finished);
    FinishingFacts(g, p.finished, p.back);
    forall u | u in g ensures u in p.finished { assert u in roots; }
    ReportedIffCyclic(g, p.finished, p.cycles, p.back);
  }

  // ----- the search invariant, step by step -----

  /** sorted(state.edges.get(node, set())) */
  function Targets(g: Graph, node: string): seq<string> {
    SortedOf(if node in g then g[node] else {})
  }

  lemma TargetsDistinct(g: Graph, node: string)
    ensures Distinct(Targets(g, node))
    ensures forall j | 0 <= j < |Targets(g, node)| :: node in g && Targets(g, node)[j] in g[node]
  {
    var r := Targets(g, node);
    SortedOfFacts(if node in g then g[node] else {});
    forall i, j | 0 <= i < j < |r| ensures r[i] != r[j] { LessAsymmetric(Itself(r[i]), Itself(r[j])); }
  }

  /** Following the stack from a node on it and one edge back to that node is a simple cycle. */
  lemma CycleOnStack(g: Graph, stack: seq<string>, start: nat, node: string)
    requires SimplePath(g, stack) && start < |stack| && stack[start] == node
    requires Edge(g, stack[|stack| - 1], node)
    ensures SimpleCycle(g, stack[start..] + [node])
    ensures ClosingEdge(stack[start..] + [node]) == (stack[|stack| - 1], node)
  {
    SimplePathFacts(g, stack);
    var cycle := stack[start..] + [node];
    forall i | 0 <= i < |cycle| - 1 ensures Edge(g, cycle[i], cycle[i + 1]) {
      assert cycle[i] == stack[start + i];
      if i < |cycle| - 2 { assert Edge(g, stack[start + i], stack[start + i + 1]); }
    }
    assert cycle[..|cycle| - 1] == stack[start..];
  }

  lemma AddReport(g: Graph, cycles: seq<seq<string>>, back: set<(string, string)>, cycle: seq<string>)
    requires ReportsFor(g, cycles, back) && SimpleCycle(g, cycle) && ClosingEdge(cycle) !in back
    ensures ReportsFor(g, cycles + [cycle], back + {ClosingEdge(cycle)})
  {
    assert (cycles + [cycle])[..|cycles|] == cycles;
    assert back + {ClosingEdge(cycle)} - {ClosingEdge(cycle)} == back;
  }

  lemma ReportsAppend(before: seq<string>, cycles: seq<seq<string>>, cycle: seq<string>)
    ensures before + Reports(cycles + [cycle]) == before + Reports(cycles) + [Report(cycle)]
  {
    assert Reports(cycles + [cycle]) == Reports(cycles) + [Report(cycle)];
  }

  ghost function WithReport(p: Search, start: nat, node: string): (r: Search)
    requires start < |p.stack| && p.stack[start] == node && p.Arrives(node)
    ensures r.cycles == p.cycles + [p.stack[start..] + [node]]
    ensures r == p.(cycles := r.cycles, back := r.back)
    ensures Returned(p, r) && Handled(p, r, node)
  {
    var cycle := p.stack[start..] + [node];
    CycleOnStack(p.edges, p.stack, start, node);
    AddReport(p.edges, p.cycles, p.back, cycle);
    FinishingGrows(p.edges, p.finished, p.back, p.back + {ClosingEdge(cycle)});
    TopElement(p.stack);
    p.(cycles := p.cycles + [cycle], back := p.back + {ClosingEdge(cycle)})
  }

  lemma TopElement(s: seq<string>)
    requires s != []
    ensures s[|s| - 1] in Elements(s)
  {
  }

  ghost function Entered(p: Search, node: string): (r: Search)
    requires p.Arrives(node) && node !in p.visiting && node !in p.visited
    ensures r == p.(visiting := p.visiting + {node}, stack := p.stack + [node])
    ensures forall v :: (node, v) !in r.back
    ensures r.Open() < p.Open()
  {
    Push(p.stack, node);
    assert node in p.Open();
    p.(visiting := p.visiting + {node}, stack := p.stack + [node])
  }

  /** Finishing a node whose edges have all been explored. */
  ghost function Left(outer: Search, p: Search, node: string): (r: Search)
    requires outer.Arrives(node) && node !in outer.visiting && node !in outer.visited
    requires Returned(Entered(outer, node), p) && Explored(Entered(outer, node), p, node)
    ensures r == p.(visiting := outer.visiting, stack := outer.stack, visited := p.visited + {node},
                    finished := p.finished + [node])
    ensures Returned(outer, r) && Handled(outer, r, node)
  {
    Push(p.finished, node);
    p.(visiting := outer.visiting, stack := outer.stack, visited := p.visited + {node},
       finished := p.finished + [node])
  }

  lemma LeaveUndoesEnter(stack: seq<string>, visiting: set<string>, node: string)
    requires node !in visiting
    ensures (stack + [node])[..|stack + [node]| - 1] == stack
    ensures visiting + {node} - {node} == visiting
  {
  }

  ghost predicate DoneUpTo(targets: seq<string>, i: int, done: set<string>) {
    forall j | 0 <= j < |targets| :: targets[j] in done <==> j < i
  }

  lemma OneMoreDone(targets: seq<string>, i: nat, done: set<string>)
    requires Distinct(targets) && i < |targets| && DoneUpTo(targets, i, done)
    ensures DoneUpTo(targets, i + 1, done + {targets[i]})
  {
  }

  lemma NextArrives(was: Progress, now: Search, node: string, next: string, done: set<string>)
    requires ExploredUpTo(was, now, node, done) && now.stack != [] && now.stack[|now.stack| - 1] == node
    requires node in now.edges && next in now.edges[node] && next in now.nodes && next != node && next !in done
    ensures now.Arrives(next)
  {
  }

  lemma OneTargetMore(was: Progress, last: Search, now: Progress, node: string, next: string, done: set<string>)
    requires ExploredUpTo(was, last, node, done) && Returned(was, last) && Returned(last, now)
    requires last.stack != [] && last.stack[|last.stack| - 1] == node
    requires Handled(last, now, next)
    ensures ExploredUpTo(was, now, node, done + {next})
  {
    TopElement(last.stack);
  }

  lemma SelfTarget(was: Progress, now: Progress, node: string, done: set<string>)
    requires ExploredUpTo(was, now, node, done)
    ensures ExploredUpTo(was, now, node, done + {node})
  {
  }

  lemma AllTargetsDone(was: Progress, now: Progress, done: set<string>, node: string)
    requires DoneUpTo(Targets(now.edges, node), |Targets(now.edges, node)|, done)
    requires ExploredUpTo(was, now, node, done)
    ensures Explored(was, now, node)
  {
    SortedOfFacts(if node in now.edges then now.edges[node] else {});
    forall v | Edge(now.edges, node, v) ensures v in done { assert v in Targets(now.edges, node); }
  }
}
