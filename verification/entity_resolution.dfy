/** backend/workers/entity_resolution_v2.py: greedy clustering of records around anchors. In id order each record not yet
    used gathers the later unused ones that score at least the threshold against it. */
module EntityResolution {
  import opened Sequences
  import opened Text

  /** A record: str() of its id field and of its name; body stands for whatever else a scorer looks at. */
  datatype Record = Record(rawId: string, name: string, body: string)

  datatype Decision = Decision(clusterId: string, canonicalId: string, memberIds: seq<string>, score: real,
                               threshold: real, preMergeMemberIds: seq<string>)

  /** similarity_fn */
  type Scorer = (Record, Record) -> real

  function RawId(r: Record): string { r.rawId }

  function Id(r: Record): string { Strip(r.rawId) }

  function Clamped(threshold: real): (r: real)
    ensures 0.0 <= r <= 1.0
  {
    if threshold < 0.0 then 0.0 else if threshold > 1.0 then 1.0 else threshold
  }

  function Least(a: real, b: real): real { if b < a then b else a }

  // ----- the loops as functions -----

  /** An anchor with the later records merged into it. */
  datatype Cluster = Cluster(anchor: Record, others: seq<Record>, score: real)

  predicate Merges(left: Record, right: Record, used: set<string>, scorer: Scorer, threshold: real) {
    Id(right) != "" && Id(right) !in used && scorer(left, right) >= threshold
  }

  /** The inner loop over the records after the anchor. */
  function Gathered(left: Record, rights: seq<Record>, used: set<string>, scorer: Scorer, threshold: real): Cluster {
    if rights == [] then Cluster(left, [], 1.0)
    else
      var c, right := Gathered(left, rights[..|rights| - 1], used, scorer, threshold), rights[|rights| - 1];
      if Merges(left, right, used, scorer, threshold)
      then Cluster(left, c.others + [right], Least(c.score, scorer(left, right)))
      else c
  }

  function Ids(rs: seq<Record>): seq<string> {
    Mapped(Id, rs)
  }

  function MemberIds(c: Cluster): seq<string> {
    SortedSet([Id(c.anchor)] + Ids(c.others))
  }

  function AsSet(ids: seq<string>): set<string> {
    set id | id in ids
  }

  function IdSet(rs: seq<Record>): set<string> {
    if rs == [] then {} else IdSet(rs[..|rs| - 1]) + {Id(rs[|rs| - 1])}
  }

  function Members(c: Cluster): set<string> {
    IdSet(c.others) + {Id(c.anchor)}
  }

  datatype Progress = Progress(clusters: seq<Cluster>, used: set<string>)

  /** One turn of the outer loop. */
  function Turned(p: Progress, s: seq<Record>, k: nat, scorer: Scorer, threshold: real): Progress
    requires k < |s|
  {
    if Id(s[k]) == "" || Id(s[k]) in p.used then p
    else
      var c := Gathered(s[k], s[k + 1..], p.used, scorer, threshold);
      if c.others == [] then p else Progress(p.clusters + [c], p.used + Members(c))
  }

  /** The first k records have had their turn as anchors. */
  function Turns(s: seq<Record>, k: nat, scorer: Scorer, threshold: real): Progress
    requires k <= |s|
  {
    if k == 0 then Progress([], {}) else Turned(Turns(s, k - 1, scorer, threshold), s, k - 1, scorer, threshold)
  }

  /** The clusters for all records. */
  function Clusters(records: seq<Record>, scorer: Scorer, threshold: real): seq<Cluster> {
    Turns(SortBy(RawId, records), |records|, scorer, Clamped(threshold)).clusters
  }

  lemma MembersNotEmpty(c: Cluster)
    ensures MemberIds(c) != []
  {
    SortedSetFacts([Id(c.anchor)] + Ids(c.others));
    assert ([Id(c.anchor)] + Ids(c.others))[0] in MemberIds(c);
  }

  /** What is reported of a cluster; normalize is _normalize_token. */
  function DecisionOf(c: Cluster, threshold: real, normalize: string -> string): Decision {
    MembersNotEmpty(c);
    var canonical := MemberIds(c)[0];
    var token := normalize(c.anchor.name);
    Decision("erv2_" + (if token != "" then token else canonical), canonical, MemberIds(c), c.score, threshold, MemberIds(c))
  }

  function Reports(clusters: seq<Cluster>, threshold: real, normalize: string -> string): (r: seq<Decision>)
    ensures |r| == |clusters|
  {
    if clusters == [] then []
    else Reports(clusters[..|clusters| - 1], threshold, normalize)
         + [DecisionOf(clusters[|clusters| - 1], threshold, normalize)]
  }

  lemma ReportsAppend(clusters: seq<Cluster>, c: Cluster, threshold: real, normalize: string -> string)
    ensures Reports(clusters + [c], threshold, normalize)
         == Reports(clusters, threshold, normalize) + [DecisionOf(c, threshold, normalize)]
  {
    assert (clusters + [c])[..|clusters|] == clusters;
  }

  /** rollback_er_v2 */
  function RolledBack(d: Decision): seq<string> {
    NonBlank(d.preMergeMemberIds)
  }

  function NonBlank(ids: seq<string>): seq<string> {
    if ids == [] then []
    else
      var front, last := NonBlank(ids[..|ids| - 1]), ids[|ids| - 1];
      if Strip(last) != "" then front + [last] else front
  }

  // ----- the code -----

  method GatherMembers(left: Record, rights: seq<Record>, used: set<string>, scorer: Scorer, threshold: real)
    returns (members: seq<string>, bestScore: real, ghost c: Cluster)
    ensures c == Gathered(left, rights, used, scorer, threshold)
    ensures members == [Id(left)] + Ids(c.others) && bestScore == c.score && c.anchor == left
  {
    members, bestScore, c := [Strip(left.rawId)], 1.0, Cluster(left, [], 1.0);
    for j := 0 to |rights|
      invariant c == Gathered(left, rights[..j], used, scorer, threshold)
      invariant members == [Id(left)] + Ids(c.others) && bestScore == c.score && c.anchor == left
    {
      var right := rights[j];
      assert rights[..j + 1][..j] == rights[..j];
      var rightId := Strip(right.rawId);
      if rightId != "" && rightId !in used {
        var score := scorer(left, right);
        if score >= threshold {
          IdsAppend(c.others, right);
          members := members + [rightId];
          bestScore := if score < bestScore then score else bestScore;
          c := Cluster(left, c.others + [right], bestScore);
        }
      }
    }
    assert rights[..|rights|] == rights;
  }

  lemma IdsAppend(rs: seq<Record>, r: Record)
    ensures Ids(rs + [r]) == Ids(rs) + [Id(r)]
  {
    assert (rs + [r])[..|rs|] == rs;
  }

  method ResolveEntities(records: seq<Record>, threshold: real, scorer: Scorer, normalize: string -> string)
    returns (decisions: seq<Decision>)
    ensures decisions == Reports(Clusters(records, scorer, threshold), Clamped(threshold), normalize)
  {
    decisions := [];
    var usedIds: set<string> := {};
    var normalizedThreshold := Clamped(threshold);
    var s := SortBy(RawId, records);
    ghost var p := Progress([], {});
    for k := 0 to |s|
      invariant p == Turns(s, k, scorer, normalizedThreshold) && usedIds == p.used
      invariant decisions == Reports(p.clusters, normalizedThreshold, normalize)
    {
      ghost var next := Turned(p, s, k, scorer, normalizedThreshold);
      NextTurn(s, k, scorer, normalizedThreshold);
      var leftId := Strip(s[k].rawId);
      if leftId != "" && leftId !in usedIds {
        var members, bestScore, c := GatherMembers(s[k], s[k + 1..], usedIds, scorer, normalizedThreshold);
        if |members| >= 2 {
          var membersSorted := SortedSet(members);
          var decision := Decide(s[k], membersSorted, bestScore, normalizedThreshold, normalize, c);
          ReportsAppend(p.clusters, c, normalizedThreshold, normalize);
          MemberIdsAreMembers(c);
          usedIds := usedIds + AsSet(membersSorted);
          decisions := decisions + [decision];
          assert next == Progress(p.clusters + [c], usedIds);
        } else {
          assert next == p;
        }
      }
      p := next;
    }
  }

  lemma NextTurn(s: seq<Record>, k: nat, scorer: Scorer, threshold: real)
    requires k < |s|
    ensures Turns(s, k + 1, scorer, threshold) == Turned(Turns(s, k, scorer, threshold), s, k, scorer, threshold)
  {
  }

  method Decide(left: Record, membersSorted: seq<string>, bestScore: real, threshold: real,
                normalize: string -> string, ghost c: Cluster)
    returns (d: Decision)
    requires c.anchor == left && membersSorted == MemberIds(c) && bestScore == c.score
    ensures d == DecisionOf(c, threshold, normalize)
  {
    MembersNotEmpty(c);
    var token := normalize(left.name);
    var clusterKey := if token != "" then token else membersSorted[0];
    d := Decision("erv2_" + clusterKey, membersSorted[0], membersSorted, bestScore, threshold, membersSorted);
  }

  // ----- one cluster -----

  /** Exactly the later records that merge are gathered, in order. */
  lemma {:induction false} GatheredFacts(left: Record, rights: seq<Record>, used: set<string>, scorer: Scorer, threshold: real)
    ensures var c := Gathered(left, rights, used, scorer, threshold);
            && c.anchor == left
            && forall r :: r in c.others <==> r in rights && Merges(left, r, used, scorer, threshold)
  {
    if rights != [] {
      GatheredFacts(left, rights[..|rights| - 1], used, scorer, threshold);
      FrontMultiset(rights);
      var c := Gathered(left, rights[..|rights| - 1], used, scorer, threshold);
      forall r ensures r in rights <==> r in rights[..|rights| - 1] || r == rights[|rights| - 1] {}
    }
  }

  /** The score is the minimum of the members' scores against the anchor and 1. */
  lemma {:induction false} ScoreIsMinimum(left: Record, rights: seq<Record>, used: set<string>, scorer: Scorer, threshold: real)
    ensures var c := Gathered(left, rights, used, scorer, threshold);
            && c.score <= 1.0 && (forall r | r in c.others :: c.score <= scorer(left, r))
            && (c.score == 1.0 || exists r :: r in c.others && c.score == scorer(left, r))
  {
    if rights != [] { ScoreIsMinimum(left, rights[..|rights| - 1], used, scorer, threshold); }
  }

  lemma IdsContents(rs: seq<Record>, id: string)
    ensures id in Ids(rs) <==> exists r :: r in rs && Id(r) == id
  {
    MappedAt(Id, rs);
    if id in Ids(rs) {
      var i :| 0 <= i < |Ids(rs)| && Ids(rs)[i] == id;
      assert rs[i] in rs;
    }
    if exists r :: r in rs && Id(r) == id {
      var r :| r in rs && Id(r) == id;
      var i :| 0 <= i < |rs| && rs[i] == r;
      assert Ids(rs)[i] == id;
    }
  }

  lemma {:induction false} IdSetContents(rs: seq<Record>, id: string)
    ensures id in IdSet(rs) <==> exists r :: r in rs && Id(r) == id
  {
    if rs != [] {
      IdSetContents(rs[..|rs| - 1], id);
      FrontMultiset(rs);
      assert forall r :: r in rs <==> r in rs[..|rs| - 1] || r == rs[|rs| - 1];
    }
  }

  lemma MembersAre(c: Cluster, id: string)
    ensures id in Members(c) <==> id == Id(c.anchor) || exists r :: r in c.others && Id(r) == id
    ensures id in MemberIds(c) <==> id in Members(c)
  {
    SortedSetFacts([Id(c.anchor)] + Ids(c.others));
    IdsContents(c.others, id);
    IdSetContents(c.others, id);
  }

  /** The sorted member ids are the members. */
  lemma MemberIdsAreMembers(c: Cluster)
    ensures AsSet(MemberIds(c)) == Members(c)
  {
    forall id ensures id in AsSet(MemberIds(c)) <==> id in Members(c) { MembersAre(c, id); }
  }

  // ----- all clusters -----

  /** The anchor is record k and the others come later. */
  ghost predicate AnchoredAt(c: Cluster, s: seq<Record>, k: nat) {
    k < |s| && s[k] == c.anchor && forall r | r in c.others :: r in s[k + 1..]
  }

  /** A cluster made at some turn: its anchor, and later records that reach the threshold against it. */
  ghost predicate Sound(c: Cluster, s: seq<Record>, scorer: Scorer, threshold: real) {
    && (exists k :: AnchoredAt(c, s, k))
    && Id(c.anchor) != "" && c.others != []
    && (forall r | r in c.others :: Id(r) != "" && scorer(c.anchor, r) >= threshold && c.score <= scorer(c.anchor, r))
    && c.score <= 1.0 && (c.score == 1.0 || exists r :: r in c.others && c.score == scorer(c.anchor, r))
  }

  ghost predicate Disjoint(clusters: seq<Cluster>) {
    forall i, j | 0 <= i < j < |clusters| :: Members(clusters[i]) !! Members(clusters[j])
  }

  function Union(clusters: seq<Cluster>): set<string> {
    if clusters == [] then {} else Union(clusters[..|clusters| - 1]) + Members(clusters[|clusters| - 1])
  }

  lemma TurnedCluster(s: seq<Record>, k: nat, used: set<string>, scorer: Scorer, threshold: real)
    requires k < |s| && Id(s[k]) != "" && Id(s[k]) !in used
    requires Gathered(s[k], s[k + 1..], used, scorer, threshold).others != []
    ensures var c := Gathered(s[k], s[k + 1..], used, scorer, threshold);
            Sound(c, s, scorer, threshold) && Members(c) !! used
  {
    var c := Gathered(s[k], s[k + 1..], used, scorer, threshold);
    GatheredFacts(s[k], s[k + 1..], used, scorer, threshold);
    ScoreIsMinimum(s[k], s[k + 1..], used, scorer, threshold);
    forall id | id in Members(c) ensures id !in used { MembersAre(c, id); }
    assert AnchoredAt(c, s, k);
  }

  lemma MemberComesLater(c: Cluster, s: seq<Record>, scorer: Scorer, threshold: real, r: Record) returns (k: nat, j: nat)
    requires Sound(c, s, scorer, threshold) && r in c.others
    ensures k < j < |s| && s[k] == c.anchor && s[j] == r
  {
    k :| AnchoredAt(c, s, k);
    var later := s[k + 1..];
    var i :| 0 <= i < |later| && later[i] == r;
    j := k + 1 + i;
    assert s[j] == later[i];
  }

  /** The used ids are the members of the clusters, each in one cluster only: taking the clusters' members away from
      the last to the first takes each once and leaves none. */
  ghost predicate Separate(clusters: seq<Cluster>, used: set<string>) {
    if clusters == [] then used == {}
    else
      var m := Members(clusters[|clusters| - 1]);
      m <= used && Separate(clusters[..|clusters| - 1], used - m)
  }

  lemma SeparateAppend(clusters: seq<Cluster>, used: set<string>, c: Cluster, m: set<string>)
    requires Separate(clusters, used) && m == Members(c) && m !! used
    ensures Separate(clusters + [c], used + m)
  {
    assert (clusters + [c])[..|clusters|] == clusters;
    assert used + m - m == used;
  }

  lemma {:induction false} SeparateMembers(clusters: seq<Cluster>, used: set<string>, i: nat)
    requires Separate(clusters, used) && i < |clusters|
    ensures Members(clusters[i]) <= used
  {
    if i < |clusters| - 1 {
      SeparateMembers(clusters[..|clusters| - 1], used - Members(clusters[|clusters| - 1]), i);
    }
  }

  lemma {:induction false} SeparateIsDisjoint(clusters: seq<Cluster>, used: set<string>, i: nat, j: nat)
    requires Separate(clusters, used) && i < j < |clusters|
    ensures Members(clusters[i]) !! Members(clusters[j])
  {
    var rest := used - Members(clusters[|clusters| - 1]);
    if j < |clusters| - 1 {
      SeparateIsDisjoint(clusters[..|clusters| - 1], rest, i, j);
    } else {
      SeparateMembers(clusters[..|clusters| - 1], rest, i);
    }
  }

  lemma {:induction false} SeparateIsUnion(clusters: seq<Cluster>, used: set<string>)
    requires Separate(clusters, used)
    ensures used == Union(clusters)
  {
    if clusters != [] { SeparateIsUnion(clusters[..|clusters| - 1], used - Members(clusters[|clusters| - 1])); }
  }

  lemma TurnedSeparate(p: Progress, s: seq<Record>, k: nat, scorer: Scorer, threshold: real)
    requires k < |s| && Separate(p.clusters, p.used)
    ensures var q := Turned(p, s, k, scorer, threshold); Separate(q.clusters, q.used)
  {
    var c := Gathered(s[k], s[k + 1..], p.used, scorer, threshold);
    if Id(s[k]) != "" && Id(s[k]) !in p.used && c.others != [] {
      TurnedCluster(s, k, p.used, scorer, threshold);
      SeparateAppend(p.clusters, p.used, c, Members(c));
    }
  }

  lemma {:induction false} TurnsSeparate(s: seq<Record>, k: nat, scorer: Scorer, threshold: real) returns (p: Progress)
    requires k <= |s|
    ensures p == Turns(s, k, scorer, threshold) && Separate(p.clusters, p.used)
  {
    if k == 0 {
      p := Progress([], {});
    } else {
      p := TurnsSeparate(s, k - 1, scorer, threshold);
      TurnedSeparate(p, s, k - 1, scorer, threshold);
      p := Turned(p, s, k - 1, scorer, threshold);
    }
  }

  ghost predicate AllSound(clusters: seq<Cluster>, s: seq<Record>, scorer: Scorer, threshold: real) {
    clusters == []
    || (AllSound(clusters[..|clusters| - 1], s, scorer, threshold) && Sound(clusters[|clusters| - 1], s, scorer, threshold))
  }

  lemma {:induction false} TurnsSound(s: seq<Record>, k: nat, scorer: Scorer, threshold: real)
    requires k <= |s|
    ensures AllSound(Turns(s, k, scorer, threshold).clusters, s, scorer, threshold)
  {
    if k > 0 {
      TurnsSound(s, k - 1, scorer, threshold);
      var p := Turns(s, k - 1, scorer, threshold);
      var c := Gathered(s[k - 1], s[k..], p.used, scorer, threshold);
      if Id(s[k - 1]) != "" && Id(s[k - 1]) !in p.used && c.others != [] {
        assert Sound(c, s, scorer, threshold) by { TurnedCluster(s, k - 1, p.used, scorer, threshold); }
        assert (p.clusters + [c])[..|p.clusters|] == p.clusters;
      }
    }
  }

  lemma {:induction false} SoundAt(clusters: seq<Cluster>, s: seq<Record>, scorer: Scorer, threshold: real, i: nat)
    requires AllSound(clusters, s, scorer, threshold) && i < |clusters|
    ensures Sound(clusters[i], s, scorer, threshold)
  {
    if i < |clusters| - 1 { SoundAt(clusters[..|clusters| - 1], s, scorer, threshold, i); }
  }

  lemma {:induction false} UsedGrows(s: seq<Record>, j: nat, k: nat, scorer: Scorer, threshold: real)
    requires j <= k <= |s|
    ensures Turns(s, j, scorer, threshold).used <= Turns(s, k, scorer, threshold).used
  {
    if j < k { UsedGrows(s, j, k - 1, scorer, threshold); }
  }

  /** Maximality: of two records left out of all clusters, the later one misses the threshold against the earlier. */
  lemma UnclusteredPairsMiss(s: seq<Record>, i: nat, j: nat, scorer: Scorer, threshold: real)
    requires i < j < |s| && Id(s[i]) != "" && Id(s[j]) != ""
    requires Id(s[i]) !in Turns(s, |s|, scorer, threshold).used && Id(s[j]) !in Turns(s, |s|, scorer, threshold).used
    ensures scorer(s[i], s[j]) < threshold
  {
    var used := Turns(s, i, scorer, threshold).used;
    UsedGrows(s, i, |s|, scorer, threshold);
    assert Id(s[i]) !in used && Id(s[j]) !in used;
    if Gathered(s[i], s[i + 1..], used, scorer, threshold).others != [] {
      AnchorIsUsed(s, i, scorer, threshold);
    } else {
      NoneGathered(s, i, j, used, scorer, threshold);
    }
  }

  lemma AnchorIsUsed(s: seq<Record>, i: nat, scorer: Scorer, threshold: real)
    requires i < |s| && Id(s[i]) != "" && Id(s[i]) !in Turns(s, i, scorer, threshold).used
    requires Gathered(s[i], s[i + 1..], Turns(s, i, scorer, threshold).used, scorer, threshold).others != []
    ensures Id(s[i]) in Turns(s, |s|, scorer, threshold).used
  {
    var p := Turns(s, i, scorer, threshold);
    var c := Gathered(s[i], s[i + 1..], p.used, scorer, threshold);
    GatheredFacts(s[i], s[i + 1..], p.used, scorer, threshold);
    MembersAre(c, Id(s[i]));
    NextTurn(s, i, scorer, threshold);
    UsedGrows(s, i + 1, |s|, scorer, threshold);
  }

  lemma NoneGathered(s: seq<Record>, i: nat, j: nat, used: set<string>, scorer: Scorer, threshold: real)
    requires i < j < |s| && Id(s[j]) != "" && Id(s[j]) !in used
    requires Gathered(s[i], s[i + 1..], used, scorer, threshold).others == []
    ensures scorer(s[i], s[j]) < threshold
  {
    GatheredFacts(s[i], s[i + 1..], used, scorer, threshold);
    assert s[i + 1..][j - i - 1] == s[j];
    assert s[j] in s[i + 1..];
  }

  // ----- the result -----

  /** Greedy resolution, for all records, scorers and thresholds: clusters are pairwise disjoint, each is an anchor
      with later records that all reach the threshold against it, scored by their minimum. */
  lemma ResolutionSound(records: seq<Record>, scorer: Scorer, threshold: real)
    ensures Disjoint(Clusters(records, scorer, threshold))
    ensures forall i | 0 <= i < |Clusters(records, scorer, threshold)| ::
              Sound(Clusters(records, scorer, threshold)[i], SortBy(RawId, records), scorer, Clamped(threshold))
  {
    var s := SortBy(RawId, records);
    var p := TurnsSeparate(s, |s|, scorer, Clamped(threshold));
    forall i, j | 0 <= i < j < |Clusters(records, scorer, threshold)|
      ensures Members(Clusters(records, scorer, threshold)[i]) !! Members(Clusters(records, scorer, threshold)[j])
    {
      SeparateIsDisjoint(p.clusters, p.used, i, j);
    }
    TurnsSound(s, |s|, scorer, Clamped(threshold));
    forall i | 0 <= i < |Clusters(records, scorer, threshold)|
      ensures Sound(Clusters(records, scorer, threshold)[i], s, scorer, Clamped(threshold))
    {
      SoundAt(Clusters(records, scorer, threshold), s, scorer, Clamped(threshold), i);
    }
  }

  /** ... and no two records outside the clusters reach it, in sorted order. */
  lemma ResolutionMaximal(records: seq<Record>, scorer: Scorer, threshold: real, i: nat, j: nat)
    requires var s := SortBy(RawId, records);
             && i < j < |s| && Id(s[i]) != "" && Id(s[j]) != ""
             && Id(s[i]) !in Union(Clusters(records, scorer, threshold))
             && Id(s[j]) !in Union(Clusters(records, scorer, threshold))
    ensures scorer(SortBy(RawId, records)[i], SortBy(RawId, records)[j]) < Clamped(threshold)
  {
    var s := SortBy(RawId, records);
    var p := TurnsSeparate(s, |records|, scorer, Clamped(threshold));
    SeparateIsUnion(p.clusters, p.used);
    UnclusteredPairsMiss(s, i, j, scorer, Clamped(threshold));
  }

  /** The canonical id is the least member, the reported members are sorted, and rolling back returns them all. */
  lemma DecisionFacts(c: Cluster, threshold: real, normalize: string -> string)
    requires Id(c.anchor) != "" && forall r | r in c.others :: Id(r) != ""
    ensures var d := DecisionOf(c, threshold, normalize);
            && d.canonicalId in Members(c) && (forall id | id in Members(c) :: AtMost(d.canonicalId, id))
            && StrictlySorted(Itself, d.memberIds) && AsSet(d.memberIds) == Members(c) && RolledBack(d) == d.memberIds
  {
    var d := DecisionOf(c, threshold, normalize);
    SortedSetFacts([Id(c.anchor)] + Ids(c.others));
    MembersNotEmpty(c);
    MemberIdsAreMembers(c);
    forall id | id in d.memberIds ensures AtMost(d.canonicalId, id) && IsStripped(id) && id != "" {
      FirstIsLeast(d.memberIds, id);
      MembersAre(c, id);
    }
    forall id | id in Members(c) ensures AtMost(d.canonicalId, id) { assert id in AsSet(d.memberIds); }
    assert d.canonicalId in AsSet(d.memberIds);
    AllKept(d.memberIds);
  }

  lemma {:induction false} AllKept(ids: seq<string>)
    requires forall id | id in ids :: IsStripped(id) && id != ""
    ensures NonBlank(ids) == ids
  {
    if ids != [] {
      assert ids[|ids| - 1] in ids;
      StripFixed(ids[|ids| - 1]);
      AllKept(ids[..|ids| - 1]);
    }
  }

  // ----- is the canonical id the anchor's? -----

  /** Trimmed ids come in the order of the raw ones. */
  ghost predicate Ascending(s: seq<Record>) {
    forall i, j | 0 <= i < j < |s| && Id(s[i]) != "" && Id(s[j]) != "" :: AtMost(Id(s[i]), Id(s[j]))
  }

  ghost predicate CanonicalIsAnchor(c: Cluster) {
    MemberIds(c) != [] && MemberIds(c)[0] == Id(c.anchor)
  }

  /** The canonical id is the anchor's exactly when no other member's id is less. */
  lemma CanonicalIsLeast(c: Cluster)
    ensures CanonicalIsAnchor(c) <==> forall r | r in c.others :: AtMost(Id(c.anchor), Id(r))
  {
    var ids := MemberIds(c);
    SortedSetFacts([Id(c.anchor)] + Ids(c.others));
    MembersNotEmpty(c);
    MembersAre(c, ids[0]);
    MembersAre(c, Id(c.anchor));
    assert AtMost(ids[0], Id(c.anchor)) by { FirstIsLeast(ids, Id(c.anchor)); }
    forall r | r in c.others ensures AtMost(ids[0], Id(r)) {
      MembersAre(c, Id(r));
      FirstIsLeast(ids, Id(r));
    }
    if ids[0] != Id(c.anchor) { LessAsymmetric(ids[0], Id(c.anchor)); }
  }

  lemma FirstIsLeast(ids: seq<string>, id: string)
    requires StrictlySorted(Itself, ids) && id in ids
    ensures AtMost(ids[0], id)
  {
    var i :| 0 <= i < |ids| && ids[i] == id;
    if i > 0 { assert Less(Itself(ids[0]), Itself(ids[i])); }
  }

  lemma AscendingAnchorIsLeast(s: seq<Record>, c: Cluster, scorer: Scorer, threshold: real)
    requires Ascending(s) && Sound(c, s, scorer, threshold)
    ensures CanonicalIsAnchor(c)
  {
    forall r | r in c.others ensures AtMost(Id(c.anchor), Id(r)) {
      var k, j := MemberComesLater(c, s, scorer, threshold, r);
    }
    CanonicalIsLeast(c);
  }

  /** Scores 1 for exactly this pair. */
  function Pair(a: Record, b: Record): Scorer {
    (left: Record, right: Record) => if left == a && right == b then 1.0 else -1.0
  }

  lemma {:induction false} GatheredNone(left: Record, rights: seq<Record>, used: set<string>, scorer: Scorer, threshold: real)
    requires forall r | r in rights :: scorer(left, r) < threshold
    ensures Gathered(left, rights, used, scorer, threshold).others == []
  {
    if rights != [] { GatheredNone(left, rights[..|rights| - 1], used, scorer, threshold); }
  }

  lemma {:induction false} NothingBefore(s: seq<Record>, k: nat, a: Record, b: Record, threshold: real)
    requires k <= |s| && threshold >= 0.0 && forall i | 0 <= i < k :: s[i] != a
    ensures Turns(s, k, Pair(a, b), threshold) == Progress([], {})
  {
    if k > 0 {
      NothingBefore(s, k - 1, a, b, threshold);
      GatheredNone(s[k - 1], s[k..], {}, Pair(a, b), threshold);
    }
  }

  lemma {:induction false} FirstOccurrence(s: seq<Record>, i: nat) returns (k: nat)
    requires i < |s|
    ensures k <= i && s[k] == s[i] && forall j | 0 <= j < k :: s[j] != s[i]
  {
    if j :| 0 <= j < i && s[j] == s[i] { k := FirstOccurrence(s, j); } else { k := i; }
  }

  lemma {:induction false} FirstClusterKept(s: seq<Record>, j: nat, k: nat, scorer: Scorer, threshold: real)
    requires j <= k <= |s| && Turns(s, j, scorer, threshold).clusters != []
    ensures Turns(s, k, scorer, threshold).clusters != []
    ensures Turns(s, k, scorer, threshold).clusters[0] == Turns(s, j, scorer, threshold).clusters[0]
  {
    if j < k { FirstClusterKept(s, j, k - 1, scorer, threshold); }
  }

  /** The scorer that likes only a pair makes a cluster of its first record as anchor and its second. */
  lemma PairClusters(s: seq<Record>, i: nat, j: nat, threshold: real)
    requires 0.0 <= threshold <= 1.0 && i < j < |s| && Id(s[i]) != "" && Id(s[j]) != ""
    ensures var clusters := Turns(s, |s|, Pair(s[i], s[j]), threshold).clusters;
            clusters != [] && clusters[0].anchor == s[i] && s[j] in clusters[0].others
  {
    var a, b, scorer := s[i], s[j], Pair(s[i], s[j]);
    var k := FirstOccurrence(s, i);
    NothingBefore(s, k, a, b, threshold);
    GatheredFacts(s[k], s[k + 1..], {}, scorer, threshold);
    assert s[k + 1..][j - k - 1] == b;
    assert b in s[k + 1..] && Merges(s[k], b, {}, scorer, threshold);
    assert Turns(s, k + 1, scorer, threshold) == Turned(Turns(s, k, scorer, threshold), s, k, scorer, threshold);
    FirstClusterKept(s, k + 1, |s|, scorer, threshold);
  }

  /** In every cluster, for every scorer, the canonical id is the anchor's. */
  ghost predicate AlwaysCanonical(records: seq<Record>, threshold: real) {
    forall scorer, c | c in Clusters(records, scorer, threshold) :: CanonicalIsAnchor(c)
  }

  /** That is so exactly when trimming the ids does not change their order. */
  lemma AlwaysCanonicalIff(records: seq<Record>, threshold: real)
    ensures AlwaysCanonical(records, threshold) <==> Ascending(SortBy(RawId, records))
  {
    var s := SortBy(RawId, records);
    if Ascending(s) {
      forall scorer, c | c in Clusters(records, scorer, threshold) ensures CanonicalIsAnchor(c) {
        ResolutionSound(records, scorer, threshold);
        AscendingAnchorIsLeast(s, c, scorer, Clamped(threshold));
      }
    }
    if AlwaysCanonical(records, threshold) {
      forall i, j | 0 <= i < j < |s| && Id(s[i]) != "" && Id(s[j]) != "" ensures AtMost(Id(s[i]), Id(s[j])) {
        var clusters := Clusters(records, Pair(s[i], s[j]), threshold);
        PairClusters(s, i, j, Clamped(threshold));
        assert clusters[0] in clusters;
        CanonicalIsLeast(clusters[0]);
      }
    }
  }

  /** A leading space puts b before a: the anchor is b, the canonical id a. */
  lemma LeadingSpaceChangesOrder(a: Record, b: Record)
    requires a.rawId == "a" && b.rawId == " b"
    ensures SortBy(RawId, [a, b]) == [b, a] && !Ascending([b, a])
  {
    assert [a, b][..1] == [a] && [a][..0] == [];
    assert SortBy(RawId, [a]) == [a] && Less(RawId(b), RawId(a));
    assert Insert(RawId, [a], b) == [b, a];
    var r := " b";
    assert r[1..] == "b";
    assert Id(b) == "b" && Id(a) == "a" && !AtMost("b", "a");
  }

  // ----- does every cluster have two members? -----

  /** Ids that are not blank after trimming are pairwise distinct. */
  ghost predicate DistinctIds(s: seq<Record>) {
    forall i, j | 0 <= i < j < |s| && Id(s[i]) != "" :: Id(s[i]) != Id(s[j])
  }

  lemma OtherMemberDiffers(s: seq<Record>, c: Cluster, scorer: Scorer, threshold: real) returns (r: Record)
    requires DistinctIds(s) && Sound(c, s, scorer, threshold)
    ensures r in c.others && Id(r) != Id(c.anchor)
  {
    r := c.others[0];
    var k, j := MemberComesLater(c, s, scorer, threshold, r);
  }

  lemma TwoElements(ids: seq<string>, a: string, b: string)
    requires a in ids && b in ids && a != b
    ensures |ids| >= 2
  {
    var i :| 0 <= i < |ids| && ids[i] == a;
    var j :| 0 <= j < |ids| && ids[j] == b;
  }

  lemma TwoMembers(s: seq<Record>, c: Cluster, scorer: Scorer, threshold: real)
    requires DistinctIds(s) && Sound(c, s, scorer, threshold)
    ensures |MemberIds(c)| >= 2
  {
    var r := OtherMemberDiffers(s, c, scorer, threshold);
    MembersAre(c, Id(c.anchor));
    MembersAre(c, Id(r));
    TwoElements(MemberIds(c), Id(c.anchor), Id(r));
  }

  /** Every cluster, for every scorer, has at least two members. */
  ghost predicate NeverAlone(records: seq<Record>, threshold: real) {
    forall scorer, c | c in Clusters(records, scorer, threshold) :: |MemberIds(c)| >= 2
  }

  /** That is so exactly when no two records have the same trimmed id: duplicates can merge into a cluster of one. */
  lemma NeverAloneIff(records: seq<Record>, threshold: real)
    ensures NeverAlone(records, threshold) <==> DistinctIds(records)
  {
    var s := SortBy(RawId, records);
    SortContents(RawId, records);
    if DistinctIds(records) {
      DistinctIdsPermuted(records, s);
      forall scorer, c | c in Clusters(records, scorer, threshold) ensures |MemberIds(c)| >= 2 {
        ResolutionSound(records, scorer, threshold);
        TwoMembers(s, c, scorer, Clamped(threshold));
      }
    }
    if NeverAlone(records, threshold) {
      forall i, j | 0 <= i < j < |s| && Id(s[i]) != "" ensures Id(s[i]) != Id(s[j]) {
        if Id(s[i]) == Id(s[j]) { DuplicatesMerge(records, threshold, i, j); }
      }
      DistinctIdsPermuted(s, records);
    }
  }

  lemma DistinctIdsPermuted(s: seq<Record>, t: seq<Record>)
    requires multiset(s) == multiset(t) && DistinctIds(s)
    ensures DistinctIds(t)
  {
    forall i, j | 0 <= i < j < |t| && Id(t[i]) != "" ensures Id(t[i]) != Id(t[j]) {
      RemoveAt(t, j);
      var rest := t[..j] + t[j + 1..];
      assert rest[i] == t[i] && t[i] in multiset(rest);
      TwicePositions(s, t[i], t[j], multiset(rest));
      var a, b :| 0 <= a < |s| && 0 <= b < |s| && a != b && s[a] == t[i] && s[b] == t[j];
      assert if a < b then Id(s[a]) != Id(s[b]) else Id(s[b]) == "" || Id(s[b]) != Id(s[a]);
    }
  }

  /** A scorer that likes only two records with one id merges them into a cluster of that one id. */
  lemma DuplicatesMerge(records: seq<Record>, threshold: real, i: nat, j: nat)
    requires var s := SortBy(RawId, records); i < j < |s| && Id(s[i]) != "" && Id(s[i]) == Id(s[j])
    ensures !NeverAlone(records, threshold)
  {
    var s := SortBy(RawId, records);
    var scorer := Pair(s[i], s[j]);
    PairClusters(s, i, j, Clamped(threshold));
    ResolutionSound(records, scorer, threshold);
    var c := Clusters(records, scorer, threshold)[0];
    PairMembers(c, s, s[i], s[j], Clamped(threshold));
    assert c in Clusters(records, scorer, threshold) && |MemberIds(c)| == 1;
  }

  lemma PairMembers(c: Cluster, s: seq<Record>, a: Record, b: Record, threshold: real)
    requires threshold >= 0.0 && Id(a) == Id(b) && c.anchor == a && Sound(c, s, Pair(a, b), threshold)
    ensures MemberIds(c) == [Id(a)]
  {
    SortedSetFacts([Id(a)] + Ids(c.others));
    MembersAre(c, Id(a));
    forall id | id in MemberIds(c) ensures id == Id(a) { MembersAre(c, id); }
    OnlyElement(MemberIds(c), Id(a));
  }

  lemma OnlyElement(ids: seq<string>, a: string)
    requires StrictlySorted(Itself, ids) && a in ids && forall id | id in ids :: id == a
    ensures ids == [a]
  {
    if |ids| > 1 {
      assert ids[0] in ids && ids[1] in ids && Less(Itself(ids[0]), Itself(ids[1]));
      LessIrreflexive(a);
    }
  }
}
