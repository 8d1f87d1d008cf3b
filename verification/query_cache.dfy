/** backend/gateway/query_cache.py: the TTL cache of query answers. The dictionary is the sequence of its entries in
    insertion order; the clock is a parameter of every call that reads it. */
module QueryCache {
  import opened Sequences
  import opened Text

  /** The constructor's arguments; the clock is a parameter of every operation. */
  datatype Config = Config(enabled: bool, ttlSeconds: int, maxEntries: int) {
    function Ttl(): (r: real)
      ensures r >= 1.0
    {
      if ttlSeconds > 1 then ttlSeconds as real else 1.0
    }

    function Capacity(): (r: nat)
      ensures r >= 1
    {
      if maxEntries > 1 then maxEntries else 1
    }
  }

  datatype Entry<V> = Entry(key: string, value: V, expiresAt: real)

  // ----- a dictionary in insertion order -----

  function Find<V>(s: seq<Entry<V>>, key: string): Option<Entry<V>> {
    if s == [] then None
    else if s[|s| - 1].key == key then Some(s[|s| - 1])
    else Find(s[..|s| - 1], key)
  }

  /** s.pop(key) for each of the keys */
  function Without<V>(s: seq<Entry<V>>, keys: set<string>): (r: seq<Entry<V>>)
    ensures |r| <= |s|
  {
    if s == [] then []
    else
      var front, last := Without(s[..|s| - 1], keys), s[|s| - 1];
      if last.key in keys then front else front + [last]
  }

  /** s[e.key] = e: an existing key keeps its place */
  function Put<V>(s: seq<Entry<V>>, e: Entry<V>): seq<Entry<V>> {
    if s == [] then [e]
    else if s[|s| - 1].key == e.key then s[..|s| - 1] + [e]
    else Put(s[..|s| - 1], e) + [s[|s| - 1]]
  }

  /** min by expiry: the first of the entries that expire first */
  function Oldest<V>(s: seq<Entry<V>>): (k: nat)
    requires s != []
    ensures k < |s|
  {
    if |s| == 1 then 0
    else
      var k := Oldest(s[..|s| - 1]);
      if s[|s| - 1].expiresAt < s[k].expiresAt then |s| - 1 else k
  }

  // ----- the operations -----

  /** get: the remaining entries and the answer */
  function Looked<V>(c: Config, s: seq<Entry<V>>, key: string, now: real): (seq<Entry<V>>, Option<V>) {
    var hit := Find(s, key);
    if !c.enabled || hit.None? then (s, None)
    else if hit.value.expiresAt <= now then (Without(s, {key}), None)
    else (s, Some(hit.value.value))
  }

  function Evicted<V>(c: Config, s: seq<Entry<V>>): seq<Entry<V>> {
    if |s| >= c.Capacity() then Without(s, {s[Oldest(s)].key}) else s
  }

  /** set */
  function Stored<V>(c: Config, s: seq<Entry<V>>, key: string, value: V, now: real): seq<Entry<V>> {
    if !c.enabled then s else Put(Evicted(c, s), Entry(key, value, now + c.Ttl()))
  }

  /** The keys that start with the prefix. */
  function Doomed<V>(s: seq<Entry<V>>, prefix: string): seq<string> {
    if s == [] then []
    else
      var front, key := Doomed(s[..|s| - 1], prefix), s[|s| - 1].key;
      if prefix <= key then front + [key] else front
  }

  function Dropped<V>(s: seq<Entry<V>>, prefix: string): seq<Entry<V>> {
    if s == [] then []
    else
      var front, last := Dropped(s[..|s| - 1], prefix), s[|s| - 1];
      if prefix <= last.key then front else front + [last]
  }

  class InMemoryQueryCache<V> {
    const config: Config
    var entries: seq<Entry<V>>

    constructor (config: Config)
      ensures this.config == config && entries == []
    {
      this.config := config;
      entries := [];
    }

    method Get(key: string, now: real) returns (r: Option<V>)
      modifies this
      ensures (entries, r) == Looked(config, old(entries), key, now)
    {
      if !config.enabled { return None; }
      var hit := Find(entries, key);
      if hit.None? { return None; }
      if hit.value.expiresAt <= now {
        entries := Without(entries, {key});
        return None;
      }
      r := Some(hit.value.value);
    }

    method Set(key: string, value: V, now: real)
      modifies this
      ensures entries == Stored(config, old(entries), key, value, now)
    {
      if !config.enabled { return; }
      var expiresAt := now + config.Ttl();
      if |entries| >= config.Capacity() {
        var oldestKey := entries[Oldest(entries)].key;
        entries := Without(entries, {oldestKey});
      }
      entries := Put(entries, Entry(key, value, expiresAt));
    }

    method InvalidatePrefix(prefix: string)
      modifies this
      ensures entries == Dropped(old(entries), prefix)
    {
      var doomed := Doomed(entries, prefix);
      assert Among(doomed[..0]) == {};
      WithoutNothing(entries);
      for i := 0 to |doomed|
        invariant entries == Without(old(entries), Among(doomed[..i]))
      {
        WithoutTwice(old(entries), Among(doomed[..i]), {doomed[i]});
        assert Among(doomed[..i]) + {doomed[i]} == Among(doomed[..i + 1]);
        entries := Without(entries, {doomed[i]});
      }
      assert doomed[..|doomed|] == doomed;
      WithoutDoomed(old(entries), prefix);
    }
  }

  function Among(keys: seq<string>): set<string> {
    set k | k in keys
  }

  lemma {:induction false} WithoutNothing<V>(s: seq<Entry<V>>)
    ensures Without(s, {}) == s
  {
    if s != [] { WithoutNothing(s[..|s| - 1]); }
  }

  lemma {:induction false} WithoutTwice<V>(s: seq<Entry<V>>, a: set<string>, b: set<string>)
    ensures Without(Without(s, a), b) == Without(s, a + b)
  {
    if s != [] {
      var front, last := s[..|s| - 1], s[|s| - 1];
      WithoutTwice(front, a, b);
      if last.key !in a {
        assert (Without(front, a) + [last])[..|Without(front, a)|] == Without(front, a);
      }
    }
  }

  lemma {:induction false} DoomedKeys<V>(s: seq<Entry<V>>, prefix: string)
    ensures forall k :: k in Doomed(s, prefix) <==> prefix <= k && exists e :: e in s && e.key == k
  {
    if s != [] {
      var front, last := s[..|s| - 1], s[|s| - 1];
      DoomedKeys(front, prefix);
      assert s == front + [last];
      forall k ensures k in Doomed(s, prefix) <==> prefix <= k && exists e :: e in s && e.key == k {
        if prefix <= k && exists e :: e in s && e.key == k {
          var e :| e in s && e.key == k;
          assert e in front || e == last;
        }
        if k in Doomed(s, prefix) && k in Doomed(front, prefix) {
          var e :| e in front && e.key == k;
          assert e in s;
        }
      }
    }
  }

  lemma WithoutDoomed<V>(s: seq<Entry<V>>, prefix: string)
    ensures Without(s, Among(Doomed(s, prefix))) == Dropped(s, prefix)
  {
    DoomedKeys(s, prefix);
    WithoutIsDropped(s, prefix, Among(Doomed(s, prefix)));
  }

  lemma {:induction false} WithoutIsDropped<V>(s: seq<Entry<V>>, prefix: string, keys: set<string>)
    requires forall e | e in s :: e.key in keys <==> prefix <= e.key
    ensures Without(s, keys) == Dropped(s, prefix)
  {
    if s != [] {
      assert s[|s| - 1] in s;
      WithoutIsDropped(s[..|s| - 1], prefix, keys);
    }
  }

  // ----- what the dictionary operations do to a lookup -----

  lemma {:induction false} FindWithout<V>(s: seq<Entry<V>>, keys: set<string>, key: string)
    ensures Find(Without(s, keys), key) == if key in keys then None else Find(s, key)
  {
    if s != [] {
      var front, last := Without(s[..|s| - 1], keys), s[|s| - 1];
      FindWithout(s[..|s| - 1], keys, key);
      assert (front + [last])[..|front|] == front;
    }
  }

  lemma {:induction false} FindDropped<V>(s: seq<Entry<V>>, prefix: string, key: string)
    ensures Find(Dropped(s, prefix), key) == if prefix <= key then None else Find(s, key)
  {
    if s != [] {
      var front, last := Dropped(s[..|s| - 1], prefix), s[|s| - 1];
      FindDropped(s[..|s| - 1], prefix, key);
      assert (front + [last])[..|front|] == front;
    }
  }

  lemma {:induction false} FindPut<V>(s: seq<Entry<V>>, e: Entry<V>, key: string)
    ensures Find(Put(s, e), key) == if key == e.key then Some(e) else Find(s, key)
    ensures |Put(s, e)| == |s| + if Find(s, e.key).None? then 1 else 0
  {
    if s != [] {
      var front, last := s[..|s| - 1], s[|s| - 1];
      if last.key == e.key {
        assert (front + [e])[..|front|] == front;
      } else {
        FindPut(front, e, key);
        assert (Put(front, e) + [last])[..|Put(front, e)|] == Put(front, e);
      }
    } else {
      assert [e][..0] == [];
    }
  }

  lemma {:induction false} WithoutShrinks<V>(s: seq<Entry<V>>, k: nat)
    requires k < |s|
    ensures |Without(s, {s[k].key})| < |s|
  {
    if k < |s| - 1 { WithoutShrinks(s[..|s| - 1], k); }
  }

  lemma {:induction false} OldestIsLeast<V>(s: seq<Entry<V>>, j: nat)
    requires j < |s|
    ensures s[Oldest(s)].expiresAt <= s[j].expiresAt
    ensures j < Oldest(s) ==> s[Oldest(s)].expiresAt < s[j].expiresAt
  {
    if |s| > 1 {
      var front := s[..|s| - 1];
      OldestIsLeast(front, Oldest(front));
      if j < |front| { OldestIsLeast(front, j); }
    }
  }

  // ----- whole runs -----

  datatype Event<V> = Get(key: string, now: real) | Set(key: string, value: V, now: real) | Invalidate(prefix: string)

  function Step<V>(c: Config, s: seq<Entry<V>>, event: Event<V>): seq<Entry<V>> {
    match event
    case Get(key, now) => Looked(c, s, key, now).0
    case Set(key, value, now) => Stored(c, s, key, value, now)
    case Invalidate(prefix) => Dropped(s, prefix)
  }

  function Run<V>(c: Config, log: seq<Event<V>>): seq<Entry<V>> {
    if log == [] then [] else Step(c, Run(c, log[..|log| - 1]), log[|log| - 1])
  }

  /** The last value set for the key and when, unless a prefix of the key was invalidated since. */
  function LastWrite<V>(log: seq<Event<V>>, key: string): Option<(V, real)> {
    if log == [] then None
    else
      var last := log[|log| - 1];
      if last.Set? && last.key == key then Some((last.value, last.now))
      else if last.Invalidate? && last.prefix <= key then None
      else LastWrite(log[..|log| - 1], key)
  }

  /** A cached entry is the last write of its key. */
  ghost predicate IsLastWrite<V>(c: Config, log: seq<Event<V>>, e: Entry<V>) {
    var w := LastWrite(log, e.key);
    w.Some? && w.value.0 == e.value && e.expiresAt == w.value.1 + c.Ttl()
  }

  lemma FindEvicted<V>(c: Config, s: seq<Entry<V>>, key: string)
    ensures Find(Evicted(c, s), key).None? || Find(Evicted(c, s), key) == Find(s, key)
  {
    if s != [] { FindWithout(s, {s[Oldest(s)].key}, key); }
  }

  lemma FindStored<V>(c: Config, s: seq<Entry<V>>, k: string, value: V, now: real, key: string)
    requires c.enabled
    ensures Find(Stored(c, s, k, value, now), key)
         == if key == k then Some(Entry(k, value, now + c.Ttl())) else Find(Evicted(c, s), key)
  {
    FindPut(Evicted(c, s), Entry(k, value, now + c.Ttl()), key);
  }

  /** A lookup after a step finds what was there before, the value just set, or nothing. */
  lemma FindStep<V>(c: Config, s: seq<Entry<V>>, event: Event<V>, key: string)
    requires c.enabled
    ensures var hit := Find(Step(c, s, event), key);
            match event
            case Get(_, _) => hit.None? || hit == Find(s, key)
            case Set(k, v, now) => if k == key then hit == Some(Entry(k, v, now + c.Ttl()))
                                   else hit.None? || hit == Find(s, key)
            case Invalidate(prefix) => hit == if prefix <= key then None else Find(s, key)
  {
    match event
    case Get(k, now) => FindWithout(s, {k}, key);
    case Set(k, v, now) =>
      FindEvicted(c, s, key);
      FindStored(c, s, k, v, now, key);
    case Invalidate(prefix) => FindDropped(s, prefix, key);
  }

  lemma {:induction false} EntriesAreLastWrites<V>(c: Config, log: seq<Event<V>>, key: string)
    requires c.enabled
    ensures var hit := Find(Run(c, log), key);
            hit.Some? ==> hit.value.key == key && IsLastWrite(c, log, hit.value)
  {
    if log != [] {
      EntriesAreLastWrites(c, log[..|log| - 1], key);
      FindStep(c, Run(c, log[..|log| - 1]), log[|log| - 1], key);
    }
  }

  /** Safety of every run: a hit is the last value set for the key, younger than the time to live, and not
      invalidated since. Nothing is assumed about the clock. */
  lemma HitIsLastWrite<V>(c: Config, log: seq<Event<V>>, key: string, now: real)
    ensures var r := Looked(c, Run(c, log), key, now).1;
            r.Some? ==> var w := LastWrite(log, key); w.Some? && w.value.0 == r.value && now < w.value.1 + c.Ttl()
  {
    if c.enabled { EntriesAreLastWrites(c, log, key); }
  }

  lemma {:induction false} SizeBounded<V>(c: Config, log: seq<Event<V>>)
    ensures |Run(c, log)| <= c.Capacity()
  {
    if log != [] {
      var s, last := Run(c, log[..|log| - 1]), log[|log| - 1];
      SizeBounded(c, log[..|log| - 1]);
      match last
      case Get(_, _) =>
      case Set(k, v, now) =>
        FindPut(Evicted(c, s), Entry(k, v, now + c.Ttl()), k);
        if |s| >= c.Capacity() { WithoutShrinks(s, Oldest(s)); }
      case Invalidate(prefix) => DroppedSize(s, prefix);
    }
  }

  lemma {:induction false} DroppedSize<V>(s: seq<Entry<V>>, prefix: string)
    ensures |Dropped(s, prefix)| <= |s|
  {
    if s != [] { DroppedSize(s[..|s| - 1], prefix); }
  }

  // ----- survival -----

  /** No key occurs twice. */
  ghost predicate Distinct<V>(s: seq<Entry<V>>) {
    s == [] || (Distinct(s[..|s| - 1]) && Find(s[..|s| - 1], s[|s| - 1].key).None?)
  }

  lemma {:induction false} FindAt<V>(s: seq<Entry<V>>, k: nat)
    requires Distinct(s) && k < |s|
    ensures Find(s, s[k].key) == Some(s[k])
  {
    if k < |s| - 1 { FindAt(s[..|s| - 1], k); }
  }

  lemma {:induction false} DistinctWithout<V>(s: seq<Entry<V>>, keys: set<string>)
    requires Distinct(s)
    ensures Distinct(Without(s, keys))
  {
    if s != [] {
      var front, last := Without(s[..|s| - 1], keys), s[|s| - 1];
      DistinctWithout(s[..|s| - 1], keys);
      FindWithout(s[..|s| - 1], keys, last.key);
      assert (front + [last])[..|front|] == front;
    }
  }

  lemma {:induction false} DistinctDropped<V>(s: seq<Entry<V>>, prefix: string)
    requires Distinct(s)
    ensures Distinct(Dropped(s, prefix))
  {
    if s != [] {
      var front, last := Dropped(s[..|s| - 1], prefix), s[|s| - 1];
      DistinctDropped(s[..|s| - 1], prefix);
      FindDropped(s[..|s| - 1], prefix, last.key);
      assert (front + [last])[..|front|] == front;
    }
  }

  lemma {:induction false} DistinctPut<V>(s: seq<Entry<V>>, e: Entry<V>)
    requires Distinct(s)
    ensures Distinct(Put(s, e))
  {
    if s == [] {
      assert [e][..0] == [];
    } else {
      var front, last := s[..|s| - 1], s[|s| - 1];
      DistinctPut(front, e);
      FindPut(front, e, last.key);
      assert (front + [e])[..|front|] == front;
      assert (Put(front, e) + [last])[..|Put(front, e)|] == Put(front, e);
    }
  }

  lemma DistinctEvicted<V>(c: Config, s: seq<Entry<V>>)
    requires Distinct(s)
    ensures Distinct(Evicted(c, s))
  {
    if s != [] { DistinctWithout(s, {s[Oldest(s)].key}); }
  }

  lemma DistinctStep<V>(c: Config, s: seq<Entry<V>>, event: Event<V>)
    requires Distinct(s)
    ensures Distinct(Step(c, s, event))
  {
    match event
    case Get(k, _) => DistinctWithout(s, {k});
    case Set(k, v, now) =>
      DistinctEvicted(c, s);
      DistinctPut(Evicted(c, s), Entry(k, v, now + c.Ttl()));
    case Invalidate(prefix) => DistinctDropped(s, prefix);
  }

  lemma {:induction false} RunDistinct<V>(c: Config, log: seq<Event<V>>)
    ensures Distinct(Run(c, log))
  {
    if log != [] {
      RunDistinct(c, log[..|log| - 1]);
      DistinctStep(c, Run(c, log[..|log| - 1]), log[|log| - 1]);
    }
  }

  /** How many entries expire at x or later. */
  function Since<V>(s: seq<Entry<V>>, x: real): (r: nat)
    ensures r <= |s|
  {
    if s == [] then 0 else Since(s[..|s| - 1], x) + if s[|s| - 1].expiresAt >= x then 1 else 0
  }

  lemma {:induction false} SinceWithout<V>(s: seq<Entry<V>>, keys: set<string>, x: real)
    ensures Since(Without(s, keys), x) <= Since(s, x)
  {
    if s != [] {
      var front, last := Without(s[..|s| - 1], keys), s[|s| - 1];
      SinceWithout(s[..|s| - 1], keys, x);
      assert (front + [last])[..|front|] == front;
    }
  }

  lemma {:induction false} SinceDropped<V>(s: seq<Entry<V>>, prefix: string, x: real)
    ensures Since(Dropped(s, prefix), x) <= Since(s, x)
  {
    if s != [] {
      var front, last := Dropped(s[..|s| - 1], prefix), s[|s| - 1];
      SinceDropped(s[..|s| - 1], prefix, x);
      assert (front + [last])[..|front|] == front;
    }
  }

  lemma {:induction false} SincePut<V>(s: seq<Entry<V>>, e: Entry<V>, x: real)
    ensures Since(Put(s, e), x) <= Since(s, x) + if e.expiresAt >= x then 1 else 0
  {
    if s == [] {
      assert [e][..0] == [];
    } else {
      var front, last := s[..|s| - 1], s[|s| - 1];
      SincePut(front, e, x);
      assert (front + [e])[..|front|] == front;
      assert (Put(front, e) + [last])[..|Put(front, e)|] == Put(front, e);
    }
  }

  lemma SinceEvicted<V>(c: Config, s: seq<Entry<V>>, x: real)
    ensures Since(Evicted(c, s), x) <= Since(s, x)
  {
    if s != [] { SinceWithout(s, {s[Oldest(s)].key}, x); }
  }

  lemma {:induction false} SomeOlder<V>(s: seq<Entry<V>>, x: real) returns (j: nat)
    requires Since(s, x) < |s|
    ensures j < |s| && s[j].expiresAt < x
  {
    if s[|s| - 1].expiresAt < x { j := |s| - 1; } else { j := SomeOlder(s[..|s| - 1], x); }
  }

  /** The key is cached, its entry expires at x or later, and at most n + 1 entries do. */
  ghost predicate Holds<V>(s: seq<Entry<V>>, key: string, x: real, n: nat) {
    && Distinct(s) && Find(s, key).Some? && Find(s, key).value.expiresAt >= x && Since(s, x) <= n + 1
  }

  function Sets<V>(log: seq<Event<V>>): nat {
    if log == [] then 0 else Sets(log[..|log| - 1]) + if log[|log| - 1].Set? then 1 else 0
  }

  /** Evicting drops an entry that expires before x, so it spares the key. */
  lemma EvictionSpares<V>(c: Config, s: seq<Entry<V>>, key: string, x: real, n: nat)
    requires Holds(s, key, x, n) && n + 1 < c.Capacity()
    ensures Holds(Evicted(c, s), key, x, n)
  {
    if |s| >= c.Capacity() {
      var j := SomeOlder(s, x);
      OldestIsLeast(s, j);
      FindAt(s, Oldest(s));
      FindWithout(s, {s[Oldest(s)].key}, key);
      DistinctEvicted(c, s);
      SinceEvicted(c, s, x);
    }
  }

  lemma PutKeeps<V>(s: seq<Entry<V>>, e: Entry<V>, key: string, x: real, n: nat)
    requires Holds(s, key, x, n) && e.expiresAt >= x
    ensures Holds(Put(s, e), key, x, n + 1)
  {
    FindPut(s, e, key);
    SincePut(s, e, x);
    DistinctPut(s, e);
  }

  /** What may happen to the cache without costing the key its entry. */
  ghost predicate Harmless<V>(event: Event<V>, key: string, x: real, ttl: real) {
    match event
    case Get(k, now) => k == key ==> now < x
    case Set(_, _, now) => now + ttl >= x
    case Invalidate(prefix) => !(prefix <= key)
  }

  lemma StepKeeps<V>(c: Config, s: seq<Entry<V>>, event: Event<V>, key: string, x: real, n: nat)
    requires c.enabled && Holds(s, key, x, n) && Harmless(event, key, x, c.Ttl())
    requires event.Set? ==> n + 1 < c.Capacity()
    ensures Holds(Step(c, s, event), key, x, if event.Set? then n + 1 else n)
  {
    match event
    case Get(k, now) =>
      if k != key {
        FindWithout(s, {k}, key);
        SinceWithout(s, {k}, x);
        DistinctWithout(s, {k});
      }
    case Set(k, v, now) =>
      EvictionSpares(c, s, key, x, n);
      PutKeeps(Evicted(c, s), Entry(k, v, now + c.Ttl()), key, x, n);
    case Invalidate(prefix) =>
      FindDropped(s, prefix, key);
      SinceDropped(s, prefix, x);
      DistinctDropped(s, prefix);
  }

  lemma SinceStored<V>(c: Config, s: seq<Entry<V>>, k: string, v: V, now: real, x: real)
    requires Since(s, x) == 0 && now + c.Ttl() < x
    ensures Since(Stored(c, s, k, v, now), x) == 0
  {
    SinceEvicted(c, s, x);
    SincePut(Evicted(c, s), Entry(k, v, now + c.Ttl()), x);
  }

  lemma SinceStep<V>(c: Config, s: seq<Entry<V>>, event: Event<V>, t: real)
    requires Since(s, t + c.Ttl()) == 0 && (event.Set? ==> event.now < t)
    ensures Since(Step(c, s, event), t + c.Ttl()) == 0
  {
    var x := t + c.Ttl();
    match event
    case Get(k, _) => SinceWithout(s, {k}, x);
    case Set(k, v, now) => SinceStored(c, s, k, v, now, x);
    case Invalidate(prefix) => SinceDropped(s, prefix, x);
  }

  /** Whatever was set before t expires before an entry set at t. */
  lemma {:induction false} EarlierExpire<V>(c: Config, log: seq<Event<V>>, t: real)
    requires forall i | 0 <= i < |log| && log[i].Set? :: log[i].now < t
    ensures Since(Run(c, log), t + c.Ttl()) == 0
  {
    if log != [] {
      EarlierExpire(c, log[..|log| - 1], t);
      SinceStep(c, Run(c, log[..|log| - 1]), log[|log| - 1], t);
    }
  }

  lemma FreshlySetHolds<V>(c: Config, before: seq<Event<V>>, key: string, value: V, t: real)
    requires c.enabled && forall i | 0 <= i < |before| && before[i].Set? :: before[i].now < t
    ensures Holds(Stored(c, Run(c, before), key, value, t), key, t + c.Ttl(), 0)
  {
    EarlierExpire(c, before, t);
    RunDistinct(c, before);
    StoredHolds(c, Run(c, before), key, value, t);
  }

  lemma StoredHolds<V>(c: Config, s: seq<Entry<V>>, key: string, value: V, t: real)
    requires c.enabled && Distinct(s) && Since(s, t + c.Ttl()) == 0
    ensures Holds(Stored(c, s, key, value, t), key, t + c.Ttl(), 0)
  {
    SinceEvicted(c, s, t + c.Ttl());
    DistinctEvicted(c, s);
    PutHolds(Evicted(c, s), Entry(key, value, t + c.Ttl()));
  }

  lemma PutHolds<V>(s: seq<Entry<V>>, e: Entry<V>)
    requires Distinct(s) && Since(s, e.expiresAt) == 0
    ensures Holds(Put(s, e), e.key, e.expiresAt, 0)
  {
    SincePut(s, e, e.expiresAt);
    FindPut(s, e, e.key);
    DistinctPut(s, e);
  }

  /** Later sets come later; lookups of the key and invalidations leave it alone. */
  ghost predicate LeftAlone<V>(after: seq<Event<V>>, key: string, t: real, ttl: real) {
    forall i | 0 <= i < |after| ::
      match after[i]
      case Get(k, now) => k == key ==> now < t + ttl
      case Set(_, _, now) => now > t
      case Invalidate(prefix) => !(prefix <= key)
  }

  lemma {:induction false} HoldsOn<V>(c: Config, s: seq<Entry<V>>, key: string, t: real, after: seq<Event<V>>)
    requires c.enabled && Holds(s, key, t + c.Ttl(), 0) && Sets(after) < c.Capacity()
    requires LeftAlone(after, key, t, c.Ttl())
    ensures Holds(Steps(c, s, after), key, t + c.Ttl(), Sets(after))
  {
    if after != [] {
      var front := after[..|after| - 1];
      assert LeftAlone(front, key, t, c.Ttl()) by {
        forall i | 0 <= i < |front| ensures front[i] == after[i] {}
      }
      HoldsOn(c, s, key, t, front);
      StepKeeps(c, Steps(c, s, front), after[|after| - 1], key, t + c.Ttl(), Sets(front));
    }
  }

  function Steps<V>(c: Config, s: seq<Entry<V>>, log: seq<Event<V>>): seq<Entry<V>> {
    if log == [] then s else Step(c, Steps(c, s, log[..|log| - 1]), log[|log| - 1])
  }

  lemma {:induction false} RunSplits<V>(c: Config, before: seq<Event<V>>, after: seq<Event<V>>)
    ensures Run(c, before + after) == Steps(c, Run(c, before), after)
  {
    if after == [] {
      assert before + after == before;
    } else {
      ConcatFront(before, after);
      RunSplits(c, before, after[..|after| - 1]);
    }
  }

  /** Under a strictly increasing clock an entry survives the next Capacity() - 1 sets, whatever their keys:
      a lookup within the time to live hits, unless a prefix of its key was invalidated. */
  lemma Survives<V>(c: Config, before: seq<Event<V>>, key: string, value: V, t: real, after: seq<Event<V>>, now: real)
    requires c.enabled && Sets(after) < c.Capacity() && now < t + c.Ttl()
    requires forall i | 0 <= i < |before| && before[i].Set? :: before[i].now < t
    requires LeftAlone(after, key, t, c.Ttl())
    ensures Looked(c, Run(c, before + [Set(key, value, t)] + after), key, now).1.Some?
  {
    var set0 := Set(key, value, t);
    assert (before + [set0])[..|before|] == before;
    FreshlySetHolds(c, before, key, value, t);
    HoldsOn(c, Run(c, before + [set0]), key, t, after);
    RunSplits(c, before + [set0], after);
  }

  /** The bound is exact: one more set, of another key, evicts the least recently set of a full cache. */
  lemma FullCacheEvictsOldest<V>(c: Config, s: seq<Entry<V>>, key: string, value: V, now: real)
    requires c.enabled && |s| >= c.Capacity() && key != s[Oldest(s)].key
    ensures Find(Stored(c, s, key, value, now), s[Oldest(s)].key).None?
  {
    FindWithout(s, {s[Oldest(s)].key}, s[Oldest(s)].key);
    FindStored(c, s, key, value, now, s[Oldest(s)].key);
  }
}
