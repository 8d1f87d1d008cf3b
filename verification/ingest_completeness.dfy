/** backend/workers/run_processor.py: the completeness accounting of a discover run. */
module IngestCompleteness {
  import opened Sequences
  import opened Text

  const QUOTA_EXCEEDED := "worker_step_item_quota_exceeded"
  const TIMEOUT_EXCEEDED := "worker_step_timeout_exceeded"

  /** One discovered file: `halted` is raised before the file is counted, `raised` while it is ingested. */
  datatype Item = Item(halted: Option<string>, raised: Option<string>)

  /** One active source: what discovery found or raised, and exceptions outside its `try`. */
  datatype Source = Source(loadFault: Option<string>, discovered: Result<seq<Item>>, saveFault: Option<string>)

  datatype Tally = Tally(expected: nat, succeeded: nat, failures: nat)

  const NOTHING := Tally(0, 0, 0)

  /** One turn of the inner loop; only quota and timeout errors leave it. */
  function Counted(t: Tally, item: Item, maxItems: int): Result<Tally> {
    if item.halted.Some? then Err(item.halted.value)
    else match item.raised
      case None =>
        if t.succeeded + 1 > maxItems then Err(QUOTA_EXCEEDED)
        else Ok(Tally(t.expected + 1, t.succeeded + 1, t.failures))
      case Some(e) =>
        if e == QUOTA_EXCEEDED || e == TIMEOUT_EXCEEDED then Err(e)
        else Ok(Tally(t.expected + 1, t.succeeded, t.failures + 1))
  }

  function CountedAll(t: Tally, items: seq<Item>, maxItems: int): Result<Tally> {
    if items == [] then Ok(t)
    else match CountedAll(t, items[..|items| - 1], maxItems)
      case Err(e) => Err(e)
      case Ok(front) => Counted(front, items[|items| - 1], maxItems)
  }

  /** One turn of the outer loop. */
  function Scanned(t: Tally, source: Source, maxItems: int): Result<Tally> {
    if source.loadFault.Some? then Err(source.loadFault.value)
    else match source.discovered
      case Err(_) => Ok(t.(failures := t.failures + 1))
      case Ok(items) =>
        if |items| > maxItems then Err(QUOTA_EXCEEDED)
        else if source.saveFault.Some? then Err(source.saveFault.value)
        else CountedAll(t, items, maxItems)
  }

  function ScannedAll(sources: seq<Source>, maxItems: int): Result<Tally> {
    if sources == [] then Ok(NOTHING)
    else match ScannedAll(sources[..|sources| - 1], maxItems)
      case Err(e) => Err(e)
      case Ok(front) => Scanned(front, sources[|sources| - 1], maxItems)
  }

  /** The nested loops over sources and discovered files. */
  method IngestSources(sources: seq<Source>, maxItems: int) returns (r: Result<Tally>)
    ensures r == ScannedAll(sources, maxItems)
  {
    var expected, succeeded, failures := 0, 0, 0;
    for s := 0 to |sources|
      invariant ScannedAll(sources[..s], maxItems) == Ok(Tally(expected, succeeded, failures))
    {
      var source := sources[s];
      assert sources[..s + 1][..s] == sources[..s];
      var counts := IngestSource(Tally(expected, succeeded, failures), source, maxItems);
      if counts.Err? {
        ScanStops(sources, maxItems, s + 1);
        return counts;
      }
      expected, succeeded, failures := counts.value.expected, counts.value.succeeded, counts.value.failures;
    }
    assert sources[..|sources|] == sources;
    r := Ok(Tally(expected, succeeded, failures));
  }

  method IngestSource(before: Tally, source: Source, maxItems: int) returns (r: Result<Tally>)
    ensures r == Scanned(before, source, maxItems)
  {
    var t := before;
    if source.loadFault.Some? { return Err(source.loadFault.value); }
    if source.discovered.Err? { return Ok(t.(failures := t.failures + 1)); }
    var items := source.discovered.value;
    if |items| > maxItems { return Err(QUOTA_EXCEEDED); }
    if source.saveFault.Some? { return Err(source.saveFault.value); }
    for i := 0 to |items|
      invariant CountedAll(before, items[..i], maxItems) == Ok(t)
    {
      var item := items[i];
      assert items[..i + 1][..i] == items[..i];
      var error := item.halted;
      if error.None? {
        t := t.(expected := t.expected + 1);
        error := item.raised;
        if error.None? {
          t := t.(succeeded := t.succeeded + 1);
          if t.succeeded > maxItems { error := Some(QUOTA_EXCEEDED); }
        } else if error.value != QUOTA_EXCEEDED && error.value != TIMEOUT_EXCEEDED {
          t := t.(failures := t.failures + 1);
          error := None;
        }
      }
      if error.Some? {
        CountStops(before, items, maxItems, i + 1);
        return Err(error.value);
      }
    }
    assert items[..|items|] == items;
    r := Ok(t);
  }

  lemma {:induction false} ScanStops(sources: seq<Source>, maxItems: int, n: nat)
    requires n <= |sources| && ScannedAll(sources[..n], maxItems).Err?
    ensures ScannedAll(sources, maxItems) == ScannedAll(sources[..n], maxItems)
  {
    if n == |sources| {
      assert sources[..n] == sources;
    } else {
      assert sources[..|sources| - 1][..n] == sources[..n];
      ScanStops(sources[..|sources| - 1], maxItems, n);
    }
  }

  lemma {:induction false} CountStops(t: Tally, items: seq<Item>, maxItems: int, n: nat)
    requires n <= |items| && CountedAll(t, items[..n], maxItems).Err?
    ensures CountedAll(t, items, maxItems) == CountedAll(t, items[..n], maxItems)
  {
    if n == |items| {
      assert items[..n] == items;
    } else {
      assert items[..|items| - 1][..n] == items[..n];
      CountStops(t, items[..|items| - 1], maxItems, n);
    }
  }

  // ----- conservation -----

  /** Files found by the sources whose discovery worked. */
  function Found(sources: seq<Source>): nat {
    if sources == [] then 0
    else
      Found(sources[..|sources| - 1])
      + if sources[|sources| - 1].discovered.Ok? then |sources[|sources| - 1].discovered.value| else 0
  }

  /** Sources whose discovery raised. */
  function Undiscovered(sources: seq<Source>): nat {
    if sources == [] then 0
    else Undiscovered(sources[..|sources| - 1]) + if sources[|sources| - 1].discovered.Err? then 1 else 0
  }

  lemma {:induction false} ItemsConserved(t: Tally, items: seq<Item>, maxItems: int)
    requires CountedAll(t, items, maxItems).Ok?
    ensures var r := CountedAll(t, items, maxItems).value;
            && r.expected == t.expected + |items|
            && r.succeeded + r.failures == t.succeeded + t.failures + |items|
            && r.failures >= t.failures
  {
    if items != [] { ItemsConserved(t, items[..|items| - 1], maxItems); }
  }

  /** Every discovered file is counted once as expected and once as a success or a failure; the remaining failures
      are the sources that could not be discovered. */
  lemma {:induction false} CountsConserved(sources: seq<Source>, maxItems: int)
    requires ScannedAll(sources, maxItems).Ok?
    ensures var t := ScannedAll(sources, maxItems).value;
            && t.expected == Found(sources)
            && t.succeeded + t.failures == t.expected + Undiscovered(sources)
            && t.failures >= Undiscovered(sources)
  {
    if sources != [] {
      var last := sources[|sources| - 1];
      CountsConserved(sources[..|sources| - 1], maxItems);
      if last.discovered.Ok? {
        ItemsConserved(ScannedAll(sources[..|sources| - 1], maxItems).value, last.discovered.value, maxItems);
      }
    }
  }

  // ----- when a strict run is complete -----

  predicate CleanItem(item: Item) {
    item.halted.None? && item.raised.None?
  }

  predicate CleanSource(source: Source) {
    && source.loadFault.None? && source.saveFault.None? && source.discovered.Ok?
    && forall item | item in source.discovered.value :: CleanItem(item)
  }

  lemma {:induction false} CleanItemsIff(t: Tally, items: seq<Item>, maxItems: int)
    requires t.succeeded <= maxItems
    ensures (CountedAll(t, items, maxItems).Ok? && CountedAll(t, items, maxItems).value.failures == t.failures)
       <==> (forall item | item in items :: CleanItem(item)) && t.succeeded + |items| <= maxItems
  {
    if items != [] {
      var front, last := items[..|items| - 1], items[|items| - 1];
      CleanItemsIff(t, front, maxItems);
      FrontMultiset(items);
      assert (forall item | item in items :: CleanItem(item))
        <==> (forall item | item in front :: CleanItem(item)) && CleanItem(last);
      if CountedAll(t, front, maxItems).Ok? { ItemsConserved(t, front, maxItems); }
    }
  }

  lemma CleanSourceIff(t: Tally, source: Source, maxItems: int)
    requires t.succeeded == 0 || t.succeeded <= maxItems
    ensures Scanned(t, source, maxItems).Ok? && Scanned(t, source, maxItems).value.failures == t.failures
       <==> CleanSource(source) && t.succeeded + |source.discovered.value| <= maxItems
  {
    if source.discovered.Ok? && |source.discovered.value| <= maxItems {
      CleanItemsIff(t, source.discovered.value, maxItems);
    }
  }

  lemma ScanNeverForgets(t: Tally, source: Source, maxItems: int)
    requires Scanned(t, source, maxItems).Ok?
    ensures Scanned(t, source, maxItems).value.failures >= t.failures
  {
    if source.discovered.Ok? { ItemsConserved(t, source.discovered.value, maxItems); }
  }

  /** No failure is recorded exactly when every source and every file is clean and the quota suffices for all. */
  lemma {:induction false} NoFailuresIff(sources: seq<Source>, maxItems: int)
    ensures ScannedAll(sources, maxItems).Ok? && ScannedAll(sources, maxItems).value.failures == 0
       <==> (forall s | s in sources :: CleanSource(s)) && (sources == [] || Found(sources) <= maxItems)
  {
    if sources != [] {
      var front, last := sources[..|sources| - 1], sources[|sources| - 1];
      NoFailuresIff(front, maxItems);
      FrontMultiset(sources);
      assert (forall s | s in sources :: CleanSource(s)) <==> (forall s | s in front :: CleanSource(s)) && CleanSource(last);
      var before := ScannedAll(front, maxItems);
      if before.Ok? {
        CountsConserved(front, maxItems);
        if before.value.failures == 0 {
          CleanSourceIff(before.value, last, maxItems);
        } else if Scanned(before.value, last, maxItems).Ok? {
          ScanNeverForgets(before.value, last, maxItems);
        }
      }
    }
  }
}
