/** backend/control_plane/catalog_snapshot.py: export and import of a workspace's catalog. Tables are maps by primary key;
    an import turns over the items in order and sees the rows it added before. */
module CatalogSnapshot {
  import opened Sequences
  import opened Text
  import opened Semantic

  datatype Workspace = Workspace(id: string, name: string, profile: string, securityBaseline: string)

  datatype Source = Source(id: string, workspaceId: string, sourceType: string, scope: Json,
                           credentialsRef: Option<string>, status: string, displayName: string)

  datatype Dataset = Dataset(id: string, workspaceId: string, sourceId: string, logicalName: string,
                             physicalLocator: string, schemaVersion: int, summary: Json)

  /** The three tables, by primary key. */
  datatype Store = Store(workspaces: map<string, Workspace>, sources: map<string, Source>, datasets: map<string, Dataset>)

  /** JSON integers: how they are written, and what int(..) makes of a value. */
  datatype Integers = Integers(write: int -> Json, read: Json -> Option<int>)

  ghost predicate ReadsBack(n: Integers) {
    forall i :: n.read(n.write(i)) == Some(i)
  }

  const EMPTY := Object(map[], "{}")

  // ----- export -----

  function SourceIds(sources: map<string, Source>, workspaceId: string): set<string> {
    set id | id in sources && sources[id].workspaceId == workspaceId
  }

  function DatasetIds(datasets: map<string, Dataset>, workspaceId: string): set<string> {
    set id | id in datasets && datasets[id].workspaceId == workspaceId
  }

  function SourceJson(s: Source): Json {
    Object(map["source_id" := Str(s.id), "source_type" := Str(s.sourceType), "scope" := s.scope,
               "display_name" := Str(s.displayName), "status" := Str(s.status),
               "credentials_redacted" := Bool(s.credentialsRef.Some? && s.credentialsRef.value != "")], "")
  }

  function DatasetJson(n: Integers, d: Dataset): Json {
    Object(map["dataset_id" := Str(d.id), "source_id" := Str(d.sourceId), "logical_name" := Str(d.logicalName),
               "physical_locator" := Str(d.physicalLocator), "schema_version" := n.write(d.schemaVersion),
               "sensitivity_summary" := d.summary], "")
  }

  /** The rows for these ids, in order. */
  function SourceItems(sources: map<string, Source>, ids: seq<string>): seq<Json>
    requires forall id | id in ids :: id in sources
  {
    if ids == [] then []
    else SourceItems(sources, ids[..|ids| - 1]) + [SourceJson(sources[ids[|ids| - 1]])]
  }

  function DatasetItems(n: Integers, datasets: map<string, Dataset>, ids: seq<string>): seq<Json>
    requires forall id | id in ids :: id in datasets
  {
    if ids == [] then []
    else DatasetItems(n, datasets, ids[..|ids| - 1]) + [DatasetJson(n, datasets[ids[|ids| - 1]])]
  }

  function WorkspaceJson(w: Workspace): Json {
    Object(map["workspace_id" := Str(w.id), "name" := Str(w.name), "profile" := Str(w.profile),
               "security_baseline" := Str(w.securityBaseline)], "")
  }

  function SnapshotJson(w: Workspace, sources: seq<Json>, datasets: seq<Json>): map<string, Json> {
    map["snapshot_version" := Str("v1"), "workspace" := WorkspaceJson(w),
        "sources" := List(sources, ""), "datasets" := List(datasets, "")]
  }

  /** export_catalog_snapshot */
  function Exported(n: Integers, db: Store, workspaceId: string): Result<map<string, Json>> {
    if workspaceId !in db.workspaces then Err("workspace_not_found")
    else
      SortedOfContents(SourceIds(db.sources, workspaceId));
      SortedOfContents(DatasetIds(db.datasets, workspaceId));
      Ok(SnapshotJson(db.workspaces[workspaceId],
                      SourceItems(db.sources, SortedOf(SourceIds(db.sources, workspaceId))),
                      DatasetItems(n, db.datasets, SortedOf(DatasetIds(db.datasets, workspaceId)))))
  }

  // ----- import, one item at a time; session.get sees the rows added before -----

  /** str(fields.get(name, default)) */
  function Field(fields: map<string, Json>, name: string, default: string): string {
    TextOf(Get(fields, name, Str(default)))
  }

  /** The id an item asks for, "" when it is skipped. */
  function SourceIdOf(item: Json): string {
    if item.Object? then Strip(Field(item.fields, "source_id", "")) else ""
  }

  function DatasetIdOf(item: Json): string {
    if item.Object? && SourceIdOf(item) != "" then Strip(Field(item.fields, "dataset_id", "")) else ""
  }

  function NewSource(fields: map<string, Json>, id: string, workspaceId: string): Source {
    var scope := Get(fields, "scope", Null);
    Source(id, workspaceId, Field(fields, "source_type", "filesystem"), if scope.Object? then scope else EMPTY, None,
           Field(fields, "status", "active"), Field(fields, "display_name", id))
  }

  function NewDataset(fields: map<string, Json>, id: string, workspaceId: string, sourceId: string, version: int): Dataset {
    var summary := Get(fields, "sensitivity_summary", Null);
    Dataset(id, workspaceId, sourceId, Field(fields, "logical_name", id), Field(fields, "physical_locator", id), version,
            if summary.Object? then summary else EMPTY)
  }

  /** The sources so far, the ids given to their items, how many were added and how many uuids drawn. */
  datatype SourceImport = SourceImport(rows: map<string, Source>, ids: map<string, string>, added: nat, drawn: nat)

  function SourceTurn(p: SourceImport, workspaceId: string, item: Json, uuid: nat -> string): SourceImport {
    var id := SourceIdOf(item);
    if id == "" then p
    else if id !in p.rows then
      SourceImport(p.rows[id := NewSource(item.fields, id, workspaceId)], p.ids[id := id], p.added + 1, p.drawn)
    else if p.rows[id].workspaceId == workspaceId then p.(ids := p.ids[id := id])
    else
      var other := uuid(p.drawn);
      SourceImport(p.rows[other := NewSource(item.fields, other, workspaceId)], p.ids[id := other], p.added + 1, p.drawn + 1)
  }

  function SourceTurns(rows: map<string, Source>, workspaceId: string, items: seq<Json>, uuid: nat -> string): SourceImport {
    if items == [] then SourceImport(rows, map[], 0, 0)
    else SourceTurn(SourceTurns(rows, workspaceId, items[..|items| - 1], uuid), workspaceId, items[|items| - 1], uuid)
  }

  /** int(item.get("schema_version", 1)), None when it raises */
  function VersionOf(n: Integers, item: Json): Option<int>
    requires item.Object?
  {
    n.read(Get(item.fields, "schema_version", n.write(1)))
  }

  /** The id given to the dataset's source in this import, else the id it names. */
  function MappedSource(ids: map<string, string>, item: Json): string {
    var asked := SourceIdOf(item);
    if asked in ids then ids[asked] else asked
  }

  datatype DatasetImport = DatasetImport(rows: map<string, Dataset>, added: nat, drawn: nat)

  /** None when int(schema_version) raises. */
  function DatasetTurn(n: Integers, p: DatasetImport, workspaceId: string, ids: map<string, string>, item: Json,
                       uuid: nat -> string): Option<DatasetImport> {
    var id := DatasetIdOf(item);
    if id == "" || (id in p.rows && p.rows[id].workspaceId == workspaceId) then Some(p)
    else match VersionOf(n, item)
      case None => None
      case Some(version) =>
        var own := if id in p.rows then uuid(p.drawn) else id;
        Some(DatasetImport(p.rows[own := NewDataset(item.fields, own, workspaceId, MappedSource(ids, item), version)],
                           p.added + 1, p.drawn + if id in p.rows then 1 else 0))
  }

  function DatasetTurns(n: Integers, rows: map<string, Dataset>, workspaceId: string, ids: map<string, string>,
                        items: seq<Json>, uuid: nat -> string): Option<DatasetImport> {
    if items == [] then Some(DatasetImport(rows, 0, 0))
    else match DatasetTurns(n, rows, workspaceId, ids, items[..|items| - 1], uuid)
      case None => None
      case Some(front) => DatasetTurn(n, front, workspaceId, ids, items[|items| - 1], uuid)
  }

  function Items(snapshot: map<string, Json>, name: string): seq<Json> {
    var v := Get(snapshot, name, List([], "[]"));
    if v.List? then v.items else []
  }

  /** Whether the snapshot was taken of another workspace. */
  predicate Mismatched(snapshot: map<string, Json>, workspaceId: string) {
    var w := Get(snapshot, "workspace", EMPTY);
    w.Object? && Field(w.fields, "workspace_id", workspaceId) != "" && Field(w.fields, "workspace_id", workspaceId) != workspaceId
  }

  datatype Counts = Counts(sources: nat, datasets: nat)

  /** Freshly drawn uuids: one stream for source ids, one for dataset ids. */
  datatype Uuids = Uuids(source: nat -> string, dataset: nat -> string)

  /** import_catalog_snapshot */
  function Imported(n: Integers, db: Store, workspaceId: string, snapshot: map<string, Json>, uuid: Uuids):
    Result<(Store, Counts)>
  {
    if workspaceId !in db.workspaces then Err("workspace_not_found")
    else if Mismatched(snapshot, workspaceId) then Err("workspace_mismatch")
    else
      var s := SourceTurns(db.sources, workspaceId, Items(snapshot, "sources"), uuid.source);
      match DatasetTurns(n, db.datasets, workspaceId, s.ids, Items(snapshot, "datasets"), uuid.dataset)
      case None => Err("invalid_schema_version")
      case Some(d) => Ok((Store(db.workspaces, s.rows, d.rows), Counts(s.added, d.added)))
  }

  class Catalog {
    var db: Store

    constructor (db: Store)
      ensures this.db == db
    {
      this.db := db;
    }

    /** An exception leaves the store as it was. */
    method Import(n: Integers, workspaceId: string, snapshot: map<string, Json>, uuid: Uuids) returns (r: Result<Counts>)
      modifies this
      ensures match Imported(n, old(db), workspaceId, snapshot, uuid)
              case Err(e) => r == Err(e) && db == old(db)
              case Ok((after, counts)) => r == Ok(counts) && db == after
    {
      if workspaceId !in db.workspaces { return Err("workspace_not_found"); }
      if Mismatched(snapshot, workspaceId) { return Err("workspace_mismatch"); }
      var s := ImportSources(workspaceId, Items(snapshot, "sources"), uuid.source);
      var d := ImportDatasets(n, workspaceId, s.ids, Items(snapshot, "datasets"), uuid.dataset);
      if d.None? { return Err("invalid_schema_version"); }
      db := Store(db.workspaces, s.rows, d.value.rows);
      r := Ok(Counts(s.added, d.value.added));
    }

    method ImportSources(workspaceId: string, items: seq<Json>, uuid: nat -> string) returns (r: SourceImport)
      ensures r == SourceTurns(db.sources, workspaceId, items, uuid)
    {
      var rows, sourceIdMap, added, drawn := db.sources, map[], 0, 0;
      for i := 0 to |items|
        invariant SourceImport(rows, sourceIdMap, added, drawn) == SourceTurns(db.sources, workspaceId, items[..i], uuid)
      {
        var item := items[i];
        assert items[..i + 1][..i] == items[..i];
        var original := SourceIdOf(item);
        if original != "" {
          var id, missing := original, original !in rows;
          if !missing && rows[id].workspaceId != workspaceId {
            id := uuid(drawn);
            drawn, missing := drawn + 1, true;
          }
          if missing {
            rows := rows[id := NewSource(item.fields, id, workspaceId)];
            added := added + 1;
          }
          sourceIdMap := sourceIdMap[original := id];
        }
      }
      assert items[..|items|] == items;
      r := SourceImport(rows, sourceIdMap, added, drawn);
    }

    method ImportDatasets(n: Integers, workspaceId: string, ids: map<string, string>, items: seq<Json>, uuid: nat -> string)
      returns (r: Option<DatasetImport>)
      ensures r == DatasetTurns(n, db.datasets, workspaceId, ids, items, uuid)
    {
      var p := DatasetImport(db.datasets, 0, 0);
      for i := 0 to |items|
        invariant Some(p) == DatasetTurns(n, db.datasets, workspaceId, ids, items[..i], uuid)
      {
        assert items[..i + 1] == items[..i] + [items[i]];
        DatasetTurnsNext(n, db.datasets, workspaceId, ids, items[..i], items[i], uuid);
        var next := ImportDataset(n, p, workspaceId, ids, items[i], uuid);
        if next.None? {
          DatasetTurnsStop(n, db.datasets, workspaceId, ids, items, uuid, i + 1);
          return None;
        }
        p := next.value;
      }
      assert items[..|items|] == items;
      r := Some(p);
    }

    /** The body of the dataset loop. */
    method ImportDataset(n: Integers, p: DatasetImport, workspaceId: string, ids: map<string, string>, item: Json,
                         uuid: nat -> string)
      returns (r: Option<DatasetImport>)
      ensures r == DatasetTurn(n, p, workspaceId, ids, item, uuid)
    {
      var id := DatasetIdOf(item);
      if id == "" { return Some(p); }
      var foreign := id in p.rows;
      if foreign && p.rows[id].workspaceId == workspaceId { return Some(p); }
      var version := VersionOf(n, item);
      if version.None? { return None; }
      var own := if foreign then uuid(p.drawn) else id;
      var dataset := NewDataset(item.fields, own, workspaceId, MappedSource(ids, item), version.value);
      r := Some(DatasetImport(p.rows[own := dataset], p.added + 1, p.drawn + if foreign then 1 else 0));
    }
  }

  lemma {:induction false} DatasetTurnsStop(n: Integers, rows: map<string, Dataset>, workspaceId: string,
                                            ids: map<string, string>, items: seq<Json>, uuid: nat -> string, k: nat)
    requires k <= |items| && DatasetTurns(n, rows, workspaceId, ids, items[..k], uuid).None?
    ensures DatasetTurns(n, rows, workspaceId, ids, items, uuid).None?
  {
    if k == |items| {
      assert items[..k] == items;
    } else {
      assert items[..|items| - 1][..k] == items[..k];
      DatasetTurnsStop(n, rows, workspaceId, ids, items[..|items| - 1], uuid, k);
    }
  }

  // ----- import leaves existing rows alone -----

  /** No drawn uuid is the key of a row: the primary key would refuse it. */
  ghost predicate NoSourceCollision(rows: map<string, Source>, workspaceId: string, items: seq<Json>, uuid: nat -> string) {
    items == []
    || (var p := SourceTurns(rows, workspaceId, items[..|items| - 1], uuid);
        NoSourceCollision(rows, workspaceId, items[..|items| - 1], uuid) && uuid(p.drawn) !in p.rows)
  }

  ghost predicate NoDatasetCollision(n: Integers, rows: map<string, Dataset>, workspaceId: string,
                                     ids: map<string, string>, items: seq<Json>, uuid: nat -> string) {
    items == []
    || (var p := DatasetTurns(n, rows, workspaceId, ids, items[..|items| - 1], uuid);
        NoDatasetCollision(n, rows, workspaceId, ids, items[..|items| - 1], uuid)
        && (p.Some? ==> uuid(p.value.drawn) !in p.value.rows))
  }

  lemma {:induction false} SourceKept(rows: map<string, Source>, workspaceId: string, items: seq<Json>, uuid: nat -> string,
                                      id: string)
    requires NoSourceCollision(rows, workspaceId, items, uuid)
    ensures var after := SourceTurns(rows, workspaceId, items, uuid).rows;
            && (id in rows ==> id in after && after[id] == rows[id])
            && (id in after && id !in rows ==> after[id].workspaceId == workspaceId)
  {
    if items != [] { SourceKept(rows, workspaceId, items[..|items| - 1], uuid, id); }
  }

  lemma {:induction false} DatasetKept(n: Integers, rows: map<string, Dataset>, workspaceId: string,
                                       ids: map<string, string>, items: seq<Json>, uuid: nat -> string, id: string)
    requires NoDatasetCollision(n, rows, workspaceId, ids, items, uuid)
    ensures var after := DatasetTurns(n, rows, workspaceId, ids, items, uuid);
            after.Some? ==> && (id in rows ==> id in after.value.rows && after.value.rows[id] == rows[id])
                            && (id in after.value.rows && id !in rows ==> after.value.rows[id].workspaceId == workspaceId)
  {
    if items != [] { DatasetKept(n, rows, workspaceId, ids, items[..|items| - 1], uuid, id); }
  }

  /** The uuids an import draws are unused. */
  ghost predicate NoCollision(n: Integers, db: Store, workspaceId: string, snapshot: map<string, Json>, uuids: Uuids) {
    var s := SourceTurns(db.sources, workspaceId, Items(snapshot, "sources"), uuids.source);
    && NoSourceCollision(db.sources, workspaceId, Items(snapshot, "sources"), uuids.source)
    && NoDatasetCollision(n, db.datasets, workspaceId, s.ids, Items(snapshot, "datasets"), uuids.dataset)
  }

  /** An import changes no existing row, its own workspace's or another's, and adds rows to its own workspace only. */
  lemma ImportKeepsRows(n: Integers, db: Store, workspaceId: string, snapshot: map<string, Json>, uuids: Uuids, id: string)
    requires NoCollision(n, db, workspaceId, snapshot, uuids) && Imported(n, db, workspaceId, snapshot, uuids).Ok?
    ensures var after := Imported(n, db, workspaceId, snapshot, uuids).value.0;
            && after.workspaces == db.workspaces
            && (id in db.sources ==> id in after.sources && after.sources[id] == db.sources[id])
            && (id in db.datasets ==> id in after.datasets && after.datasets[id] == db.datasets[id])
            && (id in after.sources && id !in db.sources ==> after.sources[id].workspaceId == workspaceId)
            && (id in after.datasets && id !in db.datasets ==> after.datasets[id].workspaceId == workspaceId)
  {
    var s := SourceTurns(db.sources, workspaceId, Items(snapshot, "sources"), uuids.source);
    SourceKept(db.sources, workspaceId, Items(snapshot, "sources"), uuids.source, id);
    DatasetKept(n, db.datasets, workspaceId, s.ids, Items(snapshot, "datasets"), uuids.dataset, id);
  }

  // ----- importing twice -----

  lemma {:induction false} SourcePresent(rows: map<string, Source>, workspaceId: string, items: seq<Json>,
                                         uuid: nat -> string, k: nat)
    requires k < |items| && SourceIdOf(items[k]) != ""
    ensures SourceIdOf(items[k]) in SourceTurns(rows, workspaceId, items, uuid).rows
  {
    if k < |items| - 1 { SourcePresent(rows, workspaceId, items[..|items| - 1], uuid, k); }
  }

  lemma {:induction false} DatasetPresent(n: Integers, rows: map<string, Dataset>, workspaceId: string,
                                          ids: map<string, string>, items: seq<Json>, uuid: nat -> string, k: nat)
    requires k < |items| && DatasetIdOf(items[k]) != ""
    ensures var after := DatasetTurns(n, rows, workspaceId, ids, items, uuid);
            after.Some? ==> DatasetIdOf(items[k]) in after.value.rows
  {
    if k < |items| - 1 { DatasetPresent(n, rows, workspaceId, ids, items[..|items| - 1], uuid, k); }
  }

  /** Every item is skipped or names a row of the workspace. */
  ghost predicate SourcesOwned(rows: map<string, Source>, workspaceId: string, items: seq<Json>) {
    forall k | 0 <= k < |items| && SourceIdOf(items[k]) != "" ::
      SourceIdOf(items[k]) in rows && rows[SourceIdOf(items[k])].workspaceId == workspaceId
  }

  ghost predicate DatasetsOwned(rows: map<string, Dataset>, workspaceId: string, items: seq<Json>) {
    forall k | 0 <= k < |items| && DatasetIdOf(items[k]) != "" ::
      DatasetIdOf(items[k]) in rows && rows[DatasetIdOf(items[k])].workspaceId == workspaceId
  }

  lemma {:induction false} OwnedSourcesAddNothing(rows: map<string, Source>, workspaceId: string, items: seq<Json>,
                                                  uuid: nat -> string)
    requires SourcesOwned(rows, workspaceId, items)
    ensures SourceTurns(rows, workspaceId, items, uuid).rows == rows
    ensures SourceTurns(rows, workspaceId, items, uuid).added == 0
  {
    if items != [] {
      var front := items[..|items| - 1];
      assert forall k | 0 <= k < |front| :: front[k] == items[k];
      OwnedSourcesAddNothing(rows, workspaceId, front, uuid);
    }
  }

  lemma {:induction false} OwnedDatasetsAddNothing(n: Integers, rows: map<string, Dataset>, workspaceId: string,
                                                   ids: map<string, string>, items: seq<Json>, uuid: nat -> string)
    requires DatasetsOwned(rows, workspaceId, items)
    ensures DatasetTurns(n, rows, workspaceId, ids, items, uuid) == Some(DatasetImport(rows, 0, 0))
  {
    if items != [] {
      var front := items[..|items| - 1];
      assert forall k | 0 <= k < |front| :: front[k] == items[k];
      OwnedDatasetsAddNothing(n, rows, workspaceId, ids, front, uuid);
    }
  }

  lemma {:induction false} ForeignSourceAdds(rows: map<string, Source>, workspaceId: string, items: seq<Json>,
                                             uuid: nat -> string, k: nat)
    requires NoSourceCollision(rows, workspaceId, items, uuid) && k < |items| && SourceIdOf(items[k]) != ""
    requires SourceIdOf(items[k]) in rows && rows[SourceIdOf(items[k])].workspaceId != workspaceId
    ensures SourceTurns(rows, workspaceId, items, uuid).added > 0
  {
    var front := items[..|items| - 1];
    if k < |items| - 1 {
      ForeignSourceAdds(rows, workspaceId, front, uuid, k);
    } else {
      SourceKept(rows, workspaceId, front, uuid, SourceIdOf(items[k]));
    }
  }

  lemma {:induction false} ForeignDatasetAdds(n: Integers, rows: map<string, Dataset>, workspaceId: string,
                                              ids: map<string, string>, items: seq<Json>, uuid: nat -> string, k: nat)
    requires NoDatasetCollision(n, rows, workspaceId, ids, items, uuid) && k < |items| && DatasetIdOf(items[k]) != ""
    requires DatasetIdOf(items[k]) in rows && rows[DatasetIdOf(items[k])].workspaceId != workspaceId
    ensures var after := DatasetTurns(n, rows, workspaceId, ids, items, uuid); after.Some? ==> after.value.added > 0
  {
    var front := items[..|items| - 1];
    if k < |items| - 1 {
      ForeignDatasetAdds(n, rows, workspaceId, ids, front, uuid, k);
    } else {
      DatasetKept(n, rows, workspaceId, ids, front, uuid, DatasetIdOf(items[k]));
    }
  }

  ghost predicate ForeignSource(sources: map<string, Source>, workspaceId: string, item: Json) {
    SourceIdOf(item) in sources && SourceIdOf(item) != "" && sources[SourceIdOf(item)].workspaceId != workspaceId
  }

  ghost predicate ForeignDataset(datasets: map<string, Dataset>, workspaceId: string, item: Json) {
    DatasetIdOf(item) in datasets && DatasetIdOf(item) != "" && datasets[DatasetIdOf(item)].workspaceId != workspaceId
  }

  /** Some item's id belongs to another workspace. */
  ghost predicate NamesForeignRow(db: Store, workspaceId: string, snapshot: map<string, Json>) {
    || (exists item :: item in Items(snapshot, "sources") && ForeignSource(db.sources, workspaceId, item))
    || (exists item :: item in Items(snapshot, "datasets") && ForeignDataset(db.datasets, workspaceId, item))
  }

  lemma OwnedAfterImport(n: Integers, db: Store, workspaceId: string, snapshot: map<string, Json>, uuids: Uuids)
    requires NoCollision(n, db, workspaceId, snapshot, uuids) && Imported(n, db, workspaceId, snapshot, uuids).Ok?
    requires !NamesForeignRow(db, workspaceId, snapshot)
    ensures var after := Imported(n, db, workspaceId, snapshot, uuids).value.0;
            && SourcesOwned(after.sources, workspaceId, Items(snapshot, "sources"))
            && DatasetsOwned(after.datasets, workspaceId, Items(snapshot, "datasets"))
  {
    var sources, datasets := Items(snapshot, "sources"), Items(snapshot, "datasets");
    var after := Imported(n, db, workspaceId, snapshot, uuids).value.0;
    var s := SourceTurns(db.sources, workspaceId, sources, uuids.source);
    forall k | 0 <= k < |sources| && SourceIdOf(sources[k]) != ""
      ensures SourceIdOf(sources[k]) in after.sources && after.sources[SourceIdOf(sources[k])].workspaceId == workspaceId
    {
      assert sources[k] in sources;
      SourcePresent(db.sources, workspaceId, sources, uuids.source, k);
      SourceKept(db.sources, workspaceId, sources, uuids.source, SourceIdOf(sources[k]));
    }
    forall k | 0 <= k < |datasets| && DatasetIdOf(datasets[k]) != ""
      ensures DatasetIdOf(datasets[k]) in after.datasets && after.datasets[DatasetIdOf(datasets[k])].workspaceId == workspaceId
    {
      assert datasets[k] in datasets;
      DatasetPresent(n, db.datasets, workspaceId, s.ids, datasets, uuids.dataset, k);
      DatasetKept(n, db.datasets, workspaceId, s.ids, datasets, uuids.dataset, DatasetIdOf(datasets[k]));
    }
  }

  lemma ForeignRowImports(n: Integers, db: Store, workspaceId: string, snapshot: map<string, Json>, uuids: Uuids)
    requires NoCollision(n, db, workspaceId, snapshot, uuids) && NamesForeignRow(db, workspaceId, snapshot)
    ensures var r := Imported(n, db, workspaceId, snapshot, uuids); r.Ok? ==> r.value.1 != Counts(0, 0)
  {
    var sources, datasets := Items(snapshot, "sources"), Items(snapshot, "datasets");
    var s := SourceTurns(db.sources, workspaceId, sources, uuids.source);
    if item :| item in sources && ForeignSource(db.sources, workspaceId, item) {
      ForeignSourceImports(db.sources, workspaceId, sources, uuids.source, item);
    } else {
      var item :| item in datasets && ForeignDataset(db.datasets, workspaceId, item);
      ForeignDatasetImports(n, db.datasets, workspaceId, s.ids, datasets, uuids.dataset, item);
    }
  }

  lemma ForeignSourceImports(rows: map<string, Source>, workspaceId: string, items: seq<Json>, uuid: nat -> string, item: Json)
    requires NoSourceCollision(rows, workspaceId, items, uuid) && item in items && ForeignSource(rows, workspaceId, item)
    ensures SourceTurns(rows, workspaceId, items, uuid).added > 0
  {
    var k :| 0 <= k < |items| && items[k] == item;
    ForeignSourceAdds(rows, workspaceId, items, uuid, k);
  }

  lemma ForeignDatasetImports(n: Integers, rows: map<string, Dataset>, workspaceId: string, ids: map<string, string>,
                              items: seq<Json>, uuid: nat -> string, item: Json)
    requires NoDatasetCollision(n, rows, workspaceId, ids, items, uuid) && item in items
    requires ForeignDataset(rows, workspaceId, item)
    ensures var after := DatasetTurns(n, rows, workspaceId, ids, items, uuid); after.Some? ==> after.value.added > 0
  {
    var k :| 0 <= k < |items| && items[k] == item;
    ForeignDatasetAdds(n, rows, workspaceId, ids, items, uuid, k);
  }

  lemma StillForeign(n: Integers, db: Store, workspaceId: string, snapshot: map<string, Json>, uuids: Uuids)
    requires NoCollision(n, db, workspaceId, snapshot, uuids) && Imported(n, db, workspaceId, snapshot, uuids).Ok?
    requires NamesForeignRow(db, workspaceId, snapshot)
    ensures NamesForeignRow(Imported(n, db, workspaceId, snapshot, uuids).value.0, workspaceId, snapshot)
  {
    var after := Imported(n, db, workspaceId, snapshot, uuids).value.0;
    if item :| item in Items(snapshot, "sources") && ForeignSource(db.sources, workspaceId, item) {
      ImportKeepsRows(n, db, workspaceId, snapshot, uuids, SourceIdOf(item));
      assert ForeignSource(after.sources, workspaceId, item);
    } else {
      var item :| item in Items(snapshot, "datasets") && ForeignDataset(db.datasets, workspaceId, item);
      ImportKeepsRows(n, db, workspaceId, snapshot, uuids, DatasetIdOf(item));
      assert ForeignDataset(after.datasets, workspaceId, item);
    }
  }

  /** Importing the same snapshot again adds nothing exactly when none of its ids belongs to another workspace: such an
      item is given a fresh uuid, and another row, each time. */
  lemma SecondImportAddsNothingIff(n: Integers, db: Store, workspaceId: string, snapshot: map<string, Json>,
                                   uuids: Uuids, later: Uuids)
    requires NoCollision(n, db, workspaceId, snapshot, uuids) && Imported(n, db, workspaceId, snapshot, uuids).Ok?
    requires NoCollision(n, Imported(n, db, workspaceId, snapshot, uuids).value.0, workspaceId, snapshot, later)
    ensures var after := Imported(n, db, workspaceId, snapshot, uuids).value.0;
            Imported(n, after, workspaceId, snapshot, later) == Ok((after, Counts(0, 0)))
            <==> !NamesForeignRow(db, workspaceId, snapshot)
  {
    var after := Imported(n, db, workspaceId, snapshot, uuids).value.0;
    if NamesForeignRow(db, workspaceId, snapshot) {
      StillForeign(n, db, workspaceId, snapshot, uuids);
      ForeignRowImports(n, after, workspaceId, snapshot, later);
    } else {
      OwnedAfterImport(n, db, workspaceId, snapshot, uuids);
      var s := SourceTurns(after.sources, workspaceId, Items(snapshot, "sources"), later.source);
      OwnedSourcesAddNothing(after.sources, workspaceId, Items(snapshot, "sources"), later.source);
      OwnedDatasetsAddNothing(n, after.datasets, workspaceId, s.ids, Items(snapshot, "datasets"), later.dataset);
    }
  }

  /** A snapshot of one source. */
  function OneSource(id: string): map<string, Json> {
    map["sources" := List([Object(map["source_id" := Str(id)], "")], "")]
  }

  /** For instance: importing one source whose id another workspace owns adds a row under a new uuid every time. */
  lemma ForeignSourceAddedEachTime(n: Integers, db: Store, workspaceId: string, id: string, uuids: Uuids, later: Uuids)
    requires workspaceId in db.workspaces && id != "" && IsStripped(id)
    requires id in db.sources && db.sources[id].workspaceId != workspaceId
    requires uuids.source(0) !in db.sources && later.source(0) !in db.sources && later.source(0) != uuids.source(0)
    ensures var first := Imported(n, db, workspaceId, OneSource(id), uuids);
            && first.Ok? && first.value.1 == Counts(1, 0)
            && first.value.0.sources.Keys == db.sources.Keys + {uuids.source(0)}
            && var second := Imported(n, first.value.0, workspaceId, OneSource(id), later);
               && second.Ok? && second.value.1 == Counts(1, 0)
               && second.value.0.sources.Keys == db.sources.Keys + {uuids.source(0), later.source(0)}
  {
    ForeignSourceAdded(n, db, workspaceId, id, uuids);
    var first := Imported(n, db, workspaceId, OneSource(id), uuids).value.0;
    ForeignSourceAdded(n, first, workspaceId, id, later);
  }

  lemma ForeignSourceAdded(n: Integers, db: Store, workspaceId: string, id: string, uuids: Uuids)
    requires workspaceId in db.workspaces && id != "" && IsStripped(id)
    requires id in db.sources && db.sources[id].workspaceId != workspaceId && uuids.source(0) !in db.sources
    ensures var r, item := Imported(n, db, workspaceId, OneSource(id), uuids), Items(OneSource(id), "sources")[0];
            && item.Object?
            && r == Ok((db.(sources := db.sources[uuids.source(0) := NewSource(item.fields, uuids.source(0), workspaceId)]),
                        Counts(1, 0)))
  {
    var items := Items(OneSource(id), "sources");
    StripFixed(id);
    assert |items| == 1 && items[..0] == [] && SourceIdOf(items[0]) == id;
    assert SourceTurns(db.sources, workspaceId, items[..0], uuids.source) == SourceImport(db.sources, map[], 0, 0);
    assert Items(OneSource(id), "datasets") == [] && !Mismatched(OneSource(id), workspaceId);
  }

  // ----- round trip -----

  ghost predicate Tidy(s: string) {
    s != "" && IsStripped(s)
  }

  /** The workspace's rows as the code writes them: keyed by their id, ids not blank and trimmed, JSON columns objects. */
  ghost predicate SourcesTidy(sources: map<string, Source>, ids: seq<string>) {
    forall id | id in ids :: id in sources && Tidy(id) && sources[id].id == id && sources[id].scope.Object?
  }

  ghost predicate DatasetsTidy(datasets: map<string, Dataset>, ids: seq<string>) {
    forall id | id in ids ::
      id in datasets && Tidy(id) && datasets[id].id == id && Tidy(datasets[id].sourceId) && datasets[id].summary.Object?
  }

  /** A source row without its credentials. */
  function Portable(s: Source, workspaceId: string): Source {
    s.(credentialsRef := None, workspaceId := workspaceId)
  }

  /** An exported source item that says no credentials were redacted. */
  function Unredacted(item: Json): Json {
    if item.Object? then Object(item.fields["credentials_redacted" := Bool(false)], item.text) else item
  }

  lemma SourceReadsBack(s: Source, workspaceId: string)
    requires Tidy(s.id) && s.scope.Object?
    ensures SourceIdOf(SourceJson(s)) == s.id
    ensures NewSource(SourceJson(s).fields, s.id, workspaceId) == Portable(s, workspaceId)
    ensures SourceJson(Portable(s, workspaceId)) == Unredacted(SourceJson(s))
  {
    StripFixed(s.id);
  }

  lemma DatasetReadsBack(n: Integers, d: Dataset, workspaceId: string)
    requires Tidy(d.id) && Tidy(d.sourceId) && d.summary.Object?
    ensures SourceIdOf(DatasetJson(n, d)) == d.sourceId && DatasetIdOf(DatasetJson(n, d)) == d.id
    ensures ReadsBack(n) ==> VersionOf(n, DatasetJson(n, d)) == Some(d.schemaVersion)
    ensures NewDataset(DatasetJson(n, d).fields, d.id, workspaceId, d.sourceId, d.schemaVersion)
         == d.(workspaceId := workspaceId)
  {
    StripFixed(d.id);
    StripFixed(d.sourceId);
  }

  ghost predicate Distinct(ids: seq<string>) {
    forall i, j | 0 <= i < j < |ids| :: ids[i] != ids[j]
  }

  lemma SourceArrives(p: SourceImport, workspaceId: string, s: Source, uuid: nat -> string)
    requires Tidy(s.id) && s.scope.Object? && s.id !in p.rows
    ensures SourceTurn(p, workspaceId, SourceJson(s), uuid)
         == SourceImport(p.rows[s.id := Portable(s, workspaceId)], p.ids[s.id := s.id], p.added + 1, p.drawn)
  {
    SourceReadsBack(s, workspaceId);
  }

  lemma SourceTurnsNext(rows: map<string, Source>, workspaceId: string, items: seq<Json>, item: Json, uuid: nat -> string)
    ensures SourceTurns(rows, workspaceId, items + [item], uuid)
         == SourceTurn(SourceTurns(rows, workspaceId, items, uuid), workspaceId, item, uuid)
  {
    assert (items + [item])[..|items|] == items;
  }

  lemma SourceItemsNext(from: map<string, Source>, ids: seq<string>)
    requires ids != [] && forall id | id in ids :: id in from
    ensures SourceItems(from, ids) == SourceItems(from, ids[..|ids| - 1]) + [SourceJson(from[ids[|ids| - 1]])]
  {
  }

  /** The portable rows for these ids. */
  function Portables(from: map<string, Source>, ids: seq<string>, workspaceId: string): map<string, Source>
    requires forall id | id in ids :: id in from
  {
    if ids == [] then map[]
    else Portables(from, ids[..|ids| - 1], workspaceId)[ids[|ids| - 1] := Portable(from[ids[|ids| - 1]], workspaceId)]
  }

  lemma {:induction false} PortablesAre(from: map<string, Source>, ids: seq<string>, workspaceId: string, id: string)
    requires forall id | id in ids :: id in from
    ensures id in Portables(from, ids, workspaceId) <==> id in ids
    ensures id in ids ==> Portables(from, ids, workspaceId)[id] == Portable(from[id], workspaceId)
  {
    if ids != [] {
      FrontMultiset(ids);
      PortablesAre(from, ids[..|ids| - 1], workspaceId, id);
    }
  }

  function Identity(ids: seq<string>): map<string, string> {
    map id | id in ids :: id
  }

  /** Importing exported sources whose ids are unknown adds exactly their portable rows, under their own ids. */
  /** All exported sources have arrived under their own ids. */
  ghost predicate SourcesArrived(from: map<string, Source>, ids: seq<string>, to: map<string, Source>,
                                 workspaceId: string, uuid: nat -> string)
    requires forall id | id in ids :: id in from
  {
    SourceTurns(to, workspaceId, SourceItems(from, ids), uuid)
    == SourceImport(to + Portables(from, ids, workspaceId), Identity(ids), |ids|, 0)
  }

  lemma {:induction false} SourcesArrive(from: map<string, Source>, ids: seq<string>, to: map<string, Source>,
                                         workspaceId: string, uuid: nat -> string)
    requires SourcesTidy(from, ids) && Distinct(ids) && forall x | x in ids :: x !in to
    ensures SourcesArrived(from, ids, to, workspaceId, uuid)
  {
    if ids == [] {
      assert to + map[] == to;
      assert Identity(ids) == map[];
    } else {
      FrontMultiset(ids);
      SourcesArrive(from, ids[..|ids| - 1], to, workspaceId, uuid);
      NextSourceArrives(from, ids, ids[..|ids| - 1], ids[|ids| - 1], to, workspaceId, uuid);
    }
  }

  lemma NextSourceArrives(from: map<string, Source>, ids: seq<string>, front: seq<string>, last: string,
                          to: map<string, Source>, workspaceId: string, uuid: nat -> string)
    requires SourcesTidy(from, ids) && Distinct(ids) && (forall x | x in ids :: x !in to)
    requires ids != [] && front == ids[..|ids| - 1] && last == ids[|ids| - 1] && (forall x | x in front :: x in from)
    requires SourcesArrived(from, front, to, workspaceId, uuid)
    ensures SourcesArrived(from, ids, to, workspaceId, uuid)
  {
    var before := to + Portables(from, front, workspaceId);
    assert last in ids && last !in front;
    PortablesAre(from, front, workspaceId, last);
    SourceItemsNext(from, ids);
    SourceTurnsNext(to, workspaceId, SourceItems(from, front), SourceJson(from[last]), uuid);
    SourceArrives(SourceImport(before, Identity(front), |front|, 0), workspaceId, from[last], uuid);
    UpdateOfSum(to, Portables(from, front, workspaceId), last, Portable(from[last], workspaceId));
    IdentityNext(ids);
  }

  lemma UpdateOfSum<K, V>(a: map<K, V>, b: map<K, V>, k: K, v: V)
    ensures (a + b)[k := v] == a + b[k := v]
  {
  }

  lemma IdentityNext(ids: seq<string>)
    requires ids != []
    ensures Identity(ids) == Identity(ids[..|ids| - 1])[ids[|ids| - 1] := ids[|ids| - 1]]
  {
    FrontMultiset(ids);
  }

  lemma DatasetArrives(n: Integers, p: DatasetImport, workspaceId: string, ids: map<string, string>, d: Dataset,
                       uuid: nat -> string)
    requires ReadsBack(n) && Tidy(d.id) && Tidy(d.sourceId) && d.summary.Object? && d.id !in p.rows
    requires d.workspaceId == workspaceId && (d.sourceId in ids ==> ids[d.sourceId] == d.sourceId)
    ensures DatasetTurn(n, p, workspaceId, ids, DatasetJson(n, d), uuid)
         == Some(DatasetImport(p.rows[d.id := d], p.added + 1, p.drawn))
  {
    DatasetReadsBack(n, d, workspaceId);
  }

  lemma DatasetTurnsNext(n: Integers, rows: map<string, Dataset>, workspaceId: string, ids: map<string, string>,
                         items: seq<Json>, item: Json, uuid: nat -> string)
    requires DatasetTurns(n, rows, workspaceId, ids, items, uuid).Some?
    ensures DatasetTurns(n, rows, workspaceId, ids, items + [item], uuid)
         == DatasetTurn(n, DatasetTurns(n, rows, workspaceId, ids, items, uuid).value, workspaceId, ids, item, uuid)
  {
    assert (items + [item])[..|items|] == items;
  }

  lemma DatasetItemsNext(n: Integers, from: map<string, Dataset>, ids: seq<string>)
    requires ids != [] && forall id | id in ids :: id in from
    ensures DatasetItems(n, from, ids) == DatasetItems(n, from, ids[..|ids| - 1]) + [DatasetJson(n, from[ids[|ids| - 1]])]
  {
  }

  function Among(from: map<string, Dataset>, ids: seq<string>): map<string, Dataset>
    requires forall id | id in ids :: id in from
  {
    map id | id in ids :: from[id]
  }

  lemma AmongNext(from: map<string, Dataset>, ids: seq<string>)
    requires ids != [] && forall id | id in ids :: id in from
    ensures Among(from, ids) == Among(from, ids[..|ids| - 1])[ids[|ids| - 1] := from[ids[|ids| - 1]]]
  {
    FrontMultiset(ids);
  }

  lemma {:induction false} DatasetsArrive(n: Integers, from: map<string, Dataset>, ids: seq<string>,
                                          to: map<string, Dataset>, workspaceId: string, renamed: map<string, string>,
                                          uuid: nat -> string)
    requires ReadsBack(n) && DatasetsTidy(from, ids) && Distinct(ids) && forall x | x in ids :: x !in to
    requires forall x | x in ids :: from[x].workspaceId == workspaceId
    requires forall x | x in renamed :: renamed[x] == x
    ensures DatasetTurns(n, to, workspaceId, renamed, DatasetItems(n, from, ids), uuid)
         == Some(DatasetImport(to + Among(from, ids), |ids|, 0))
  {
    if ids == [] {
      assert to + map[] == to;
    } else {
      var front, last := ids[..|ids| - 1], ids[|ids| - 1];
      FrontMultiset(ids);
      assert DatasetsTidy(from, front) && last in ids;
      DatasetsArrive(n, from, front, to, workspaceId, renamed, uuid);
      DatasetItemsNext(n, from, ids);
      var before := to + Among(from, front);
      DatasetTurnsNext(n, to, workspaceId, renamed, DatasetItems(n, from, front), DatasetJson(n, from[last]), uuid);
      DatasetArrives(n, DatasetImport(before, |front|, 0), workspaceId, renamed, from[last], uuid);
      UpdateOfSum(to, Among(from, front), last, from[last]);
      AmongNext(from, ids);
    }
  }

  lemma {:induction false} ItemsOfPortables(from: map<string, Source>, ids: seq<string>, rows: map<string, Source>,
                                            workspaceId: string)
    requires SourcesTidy(from, ids) && forall id | id in ids :: id in rows && rows[id] == Portable(from[id], workspaceId)
    ensures SourceItems(rows, ids) == Mapped(Unredacted, SourceItems(from, ids))
  {
    if ids != [] {
      var front, last := ids[..|ids| - 1], ids[|ids| - 1];
      assert last in ids && SourcesTidy(from, front);
      ItemsOfPortables(from, front, rows, workspaceId);
      SourceReadsBack(from[last], workspaceId);
      SourceItemsNext(from, ids);
      assert (SourceItems(from, front) + [SourceJson(from[last])])[..|SourceItems(from, front)|] == SourceItems(from, front);
    }
  }

  lemma {:induction false} ItemsOfDatasets(n: Integers, from: map<string, Dataset>, ids: seq<string>, rows: map<string, Dataset>)
    requires forall id | id in ids :: id in from && id in rows && rows[id] == from[id]
    ensures DatasetItems(n, rows, ids) == DatasetItems(n, from, ids)
  {
    if ids != [] { ItemsOfDatasets(n, from, ids[..|ids| - 1], rows); }
  }

  /** The workspace has no rows in the target, and none of its ids is a row there. */
  ghost predicate Vacant(db: Store, target: Store, workspaceId: string) {
    && SourceIds(target.sources, workspaceId) == {} && DatasetIds(target.datasets, workspaceId) == {}
    && SourceIds(db.sources, workspaceId) !! target.sources.Keys
    && DatasetIds(db.datasets, workspaceId) !! target.datasets.Keys
  }

  /** What the round trip gives back: the snapshot with no credentials marked as redacted. */
  function WithoutCredentials(n: Integers, db: Store, workspaceId: string): map<string, Json>
    requires workspaceId in db.workspaces
  {
    SortedOfContents(SourceIds(db.sources, workspaceId));
    SortedOfContents(DatasetIds(db.datasets, workspaceId));
    SnapshotJson(db.workspaces[workspaceId],
                 Mapped(Unredacted, SourceItems(db.sources, SortedOf(SourceIds(db.sources, workspaceId)))),
                 DatasetItems(n, db.datasets, SortedOf(DatasetIds(db.datasets, workspaceId))))
  }

  lemma SortedDistinct(s: set<string>)
    ensures Distinct(SortedOf(s)) && forall x :: x in SortedOf(s) <==> x in s
  {
    SortedOfFacts(s);
    var ids := SortedOf(s);
    forall i, j | 0 <= i < j < |ids| ensures ids[i] != ids[j] { LessAsymmetric(Itself(ids[i]), Itself(ids[j])); }
  }

  lemma SnapshotReads(n: Integers, w: Workspace, sources: seq<Json>, datasets: seq<Json>)
    ensures var s := SnapshotJson(w, sources, datasets);
            Items(s, "sources") == sources && Items(s, "datasets") == datasets && !Mismatched(s, w.id)
  {
  }

  /** What the target holds after importing the export. */
  lemma ImportOfExport(n: Integers, db: Store, target: Store, workspaceId: string, uuids: Uuids)
    requires ReadsBack(n) && workspaceId in db.workspaces && db.workspaces[workspaceId].id == workspaceId
    requires workspaceId in target.workspaces && Vacant(db, target, workspaceId)
    requires SourcesTidy(db.sources, SortedOf(SourceIds(db.sources, workspaceId)))
    requires DatasetsTidy(db.datasets, SortedOf(DatasetIds(db.datasets, workspaceId)))
    ensures var ss, ds := SortedOf(SourceIds(db.sources, workspaceId)), SortedOf(DatasetIds(db.datasets, workspaceId));
            Imported(n, target, workspaceId, Exported(n, db, workspaceId).value, uuids)
            == Ok((Store(target.workspaces, target.sources + Portables(db.sources, ss, workspaceId),
                         target.datasets + Among(db.datasets, ds)), Counts(|ss|, |ds|)))
  {
    var ss, ds := SortedOf(SourceIds(db.sources, workspaceId)), SortedOf(DatasetIds(db.datasets, workspaceId));
    SortedDistinct(SourceIds(db.sources, workspaceId));
    SortedDistinct(DatasetIds(db.datasets, workspaceId));
    SnapshotReads(n, db.workspaces[workspaceId], SourceItems(db.sources, ss), DatasetItems(n, db.datasets, ds));
    SourcesArrive(db.sources, ss, target.sources, workspaceId, uuids.source);
    DatasetsArrive(n, db.datasets, ds, target.datasets, workspaceId, Identity(ss), uuids.dataset);
  }

  lemma SameSourceIds(db: Store, target: Store, workspaceId: string, ss: seq<string>)
    requires Vacant(db, target, workspaceId) && ss == SortedOf(SourceIds(db.sources, workspaceId))
    requires forall id :: id in ss <==> id in SourceIds(db.sources, workspaceId)
    ensures SourceIds(target.sources + Portables(db.sources, ss, workspaceId), workspaceId)
         == SourceIds(db.sources, workspaceId)
  {
    var rows := target.sources + Portables(db.sources, ss, workspaceId);
    forall id ensures id in SourceIds(rows, workspaceId) <==> id in SourceIds(db.sources, workspaceId) {
      PortablesAre(db.sources, ss, workspaceId, id);
      assert id in target.sources ==> id !in SourceIds(target.sources, workspaceId);
    }
  }

  lemma SameDatasetIds(db: Store, target: Store, workspaceId: string, ds: seq<string>)
    requires Vacant(db, target, workspaceId) && ds == SortedOf(DatasetIds(db.datasets, workspaceId))
    requires forall id :: id in ds <==> id in DatasetIds(db.datasets, workspaceId)
    ensures DatasetIds(target.datasets + Among(db.datasets, ds), workspaceId) == DatasetIds(db.datasets, workspaceId)
  {
    var rows := target.datasets + Among(db.datasets, ds);
    forall id ensures id in DatasetIds(rows, workspaceId) <==> id in DatasetIds(db.datasets, workspaceId) {
      assert id in target.datasets ==> id !in DatasetIds(target.datasets, workspaceId);
    }
  }

  /** Exporting, importing where the workspace has no rows, and exporting again gives the same snapshot, except that no
      source says its credentials were redacted. */
  lemma RoundTrip(n: Integers, db: Store, target: Store, workspaceId: string, uuids: Uuids)
    requires ReadsBack(n) && workspaceId in db.workspaces && db.workspaces[workspaceId].id == workspaceId
    requires workspaceId in target.workspaces && target.workspaces[workspaceId] == db.workspaces[workspaceId]
    requires Vacant(db, target, workspaceId)
    requires SourcesTidy(db.sources, SortedOf(SourceIds(db.sources, workspaceId)))
    requires DatasetsTidy(db.datasets, SortedOf(DatasetIds(db.datasets, workspaceId)))
    ensures var r := Imported(n, target, workspaceId, Exported(n, db, workspaceId).value, uuids);
            r.Ok? && Exported(n, r.value.0, workspaceId) == Ok(WithoutCredentials(n, db, workspaceId))
  {
    var ss, ds := SortedOf(SourceIds(db.sources, workspaceId)), SortedOf(DatasetIds(db.datasets, workspaceId));
    ImportOfExport(n, db, target, workspaceId, uuids);
    SortedDistinct(SourceIds(db.sources, workspaceId));
    SortedDistinct(DatasetIds(db.datasets, workspaceId));
    SameSourceIds(db, target, workspaceId, ss);
    SameDatasetIds(db, target, workspaceId, ds);
    forall id | id in ss ensures id in Portables(db.sources, ss, workspaceId)
                                 && Portables(db.sources, ss, workspaceId)[id] == Portable(db.sources[id], workspaceId)
    {
      PortablesAre(db.sources, ss, workspaceId, id);
    }
    ItemsOfPortables(db.sources, ss, target.sources + Portables(db.sources, ss, workspaceId), workspaceId);
    ItemsOfDatasets(n, db.datasets, ds, target.datasets + Among(db.datasets, ds));
  }
}
