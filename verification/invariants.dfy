/**
  What the aggregate tables mean, as invariants of the store, and their
  preservation by every event step and by any run of events from the
  empty store.

  - Every label counter holds the number of distinct property-label pair
    ids recorded with its label, and every submitter-label counter the
    number of property-submitter-label pair ids recorded with its
    submitter and label.
  - A submitter's `uniqueCounties` lists each county once,
    `uniqueCountyCount` is its length and never exceeds the total mined,
    and the listed counties are exactly the recorded submitter-county pairs.
  - Every submitter-county-label counter has its pair recorded.
*/
module Invariants {
  import opened Wrappers
  import opened Ipfs
  import opened Schema
  import opened Aggregates
  import opened Mapping

  /** The ids in `m` whose record has key `c` under `key`. */
  function KeysWhere<V>(m: map<string, V>, key: V -> string, c: string): set<string> {
    set k | k in m && key(m[k]) == c
  }

  /** Adding a record under a new id adds that id to its own key's set and to no other. */
  lemma KeysWhereInsert<V>(m: map<string, V>, key: V -> string, c: string, k: string, v: V)
    requires k !in m
    ensures KeysWhere(m[k := v], key, c) == if key(v) == c then KeysWhere(m, key, c) + {k} else KeysWhere(m, key, c)
    ensures |KeysWhere(m[k := v], key, c)| == |KeysWhere(m, key, c)| + (if key(v) == c then 1 else 0)
  {
    var a, b := KeysWhere(m, key, c), KeysWhere(m[k := v], key, c);
    var a' := if key(v) == c then a + {k} else a;
    forall x | x in b ensures x in a' {
      if x != k { assert m[k := v][x] == m[x]; }
    }
    forall x | x in a' ensures x in b {
      if x != k { assert m[k := v][x] == m[x]; }
    }
    assert b == a';
  }

  /**
    Every counter equals the number of pair ids whose record has its key,
    and every pair's key has a counter.
  */
  predicate CountsExact<V, C>(pairs: map<string, V>, key: V -> string, counters: map<string, C>, count: C -> int) {
    && (forall c :: c in counters ==> count(counters[c]) == |KeysWhere(pairs, key, c)|)
    && (forall k :: k in pairs ==> key(pairs[k]) in counters)
  }

  /** A new pair together with its counter bumped by one (or created at one) keeps the counts exact. */
  lemma CountNewPair<V, C>(pairs: map<string, V>, key: V -> string, counters: map<string, C>, count: C -> int,
                           k: string, v: V, bumped: C)
    requires CountsExact(pairs, key, counters, count)
    requires k !in pairs
    requires count(bumped) == (if key(v) in counters then count(counters[key(v)]) else 0) + 1
    ensures CountsExact(pairs[k := v], key, counters[key(v) := bumped], count)
  {
    var counters' := counters[key(v) := bumped];
    if key(v) !in counters {
      forall x | x in pairs ensures key(pairs[x]) != key(v) {
      }
      assert KeysWhere(pairs, key, key(v)) == {};
    }
    forall c | c in counters' ensures count(counters'[c]) == |KeysWhere(pairs[k := v], key, c)| {
      KeysWhereInsert(pairs, key, c, k, v);
    }
  }

  function PairLabel(p: PropertyLabelPair): string { p.labelName }
  function LabelCount(c: LabelCounter): int { c.uniquePropertyCount }
  function PairSubmitterLabel(p: PropertySubmitterPair): string { Join(p.submitter, p.labelName) }
  function SubmitterLabelCount(c: SubmitterLabelCounter): int { c.uniquePropertyCount }

  predicate LabelTablesExact(s: Store) {
    && CountsExact(s.labelPairs, PairLabel, s.labelCounters, LabelCount)
    && CountsExact(s.submitterPairs, PairSubmitterLabel, s.submitterLabelCounters, SubmitterLabelCount)
  }

  /** Counter records of every submitter: the county list is a set and its count is bounded by the total. */
  predicate CountersWellFormed(counters: map<string, SubmitterCountyCounter>) {
    forall sub :: sub in counters ==>
      CountiesConsistent(counters[sub]) && counters[sub].uniqueCountyCount <= counters[sub].totalPropertiesMined
  }

  /** The submitter-county pairs and the submitters' county lists record the same sightings. */
  predicate CountyTablesAgree(pairs: map<string, SubmitterCountyPair>, counters: map<string, SubmitterCountyCounter>) {
    && (forall k :: k in pairs ==>
          pairs[k].submitter in counters && pairs[k].county in counters[pairs[k].submitter].uniqueCounties)
    && (forall sub, c :: sub in counters && c in counters[sub].uniqueCounties ==> Join(sub, c) in pairs)
  }

  predicate CountyTablesSound(s: Store) {
    && CountersWellFormed(s.submitterCountyCounters)
    && CountyTablesAgree(s.countyPairs, s.submitterCountyCounters)
    && (forall id :: id in s.countyLabelCounters ==> id in s.countyLabelPairs)
  }

  predicate Inv(s: Store) {
    LabelTablesExact(s) && CountyTablesSound(s)
  }

  lemma EmptyStoreInv()
    ensures Inv(EmptyStore)
  {
  }

  /** A record, once written under an id, stays there unchanged. */
  predicate Grows<V(==)>(a: map<string, V>, b: map<string, V>) {
    forall k :: k in a ==> k in b && b[k] == a[k]
  }

  /** Counters never disappear and never go down. */
  predicate Monotone<C>(a: map<string, C>, b: map<string, C>, count: C -> int) {
    forall k :: k in a ==> k in b && count(a[k]) <= count(b[k])
  }

  function CountyLabelCount(c: SubmitterCountyLabelCounter): int { c.propertiesMined }
  function CountyCount(c: CountyCounter): int { c.uniquePropertiesCount }
  function MinedCount(c: SubmitterCountyCounter): int { c.totalPropertiesMined }

  /**
    `b` is a later state of `a`: no property id is lost, the first-sighting
    pairs are never rewritten, and no counter goes down.
  */
  predicate Extends(a: Store, b: Store) {
    && a.properties.Keys <= b.properties.Keys
    && Grows(a.labelPairs, b.labelPairs) && Grows(a.submitterPairs, b.submitterPairs)
    && Grows(a.countyPairs, b.countyPairs) && Grows(a.countyLabelPairs, b.countyLabelPairs)
    && Monotone(a.labelCounters, b.labelCounters, LabelCount)
    && Monotone(a.submitterLabelCounters, b.submitterLabelCounters, SubmitterLabelCount)
    && Monotone(a.countyLabelCounters, b.countyLabelCounters, CountyLabelCount)
    && Monotone(a.countyCounters, b.countyCounters, CountyCount)
    && Monotone(a.submitterCountyCounters, b.submitterCountyCounters, MinedCount)
  }

  lemma GrowsTransitive<V>(a: map<string, V>, b: map<string, V>, c: map<string, V>)
    requires Grows(a, b) && Grows(b, c)
    ensures Grows(a, c)
  {
  }

  lemma MonotoneTransitive<C>(a: map<string, C>, b: map<string, C>, c: map<string, C>, count: C -> int)
    requires Monotone(a, b, count) && Monotone(b, c, count)
    ensures Monotone(a, c, count)
  {
  }

  lemma ExtendsTransitive(a: Store, b: Store, c: Store)
    requires Extends(a, b) && Extends(b, c)
    ensures Extends(a, c)
  {
    GrowsTransitive(a.labelPairs, b.labelPairs, c.labelPairs);
    GrowsTransitive(a.submitterPairs, b.submitterPairs, c.submitterPairs);
    GrowsTransitive(a.countyPairs, b.countyPairs, c.countyPairs);
    GrowsTransitive(a.countyLabelPairs, b.countyLabelPairs, c.countyLabelPairs);
    MonotoneTransitive(a.labelCounters, b.labelCounters, c.labelCounters, LabelCount);
    MonotoneTransitive(a.submitterLabelCounters, b.submitterLabelCounters, c.submitterLabelCounters,
      SubmitterLabelCount);
    MonotoneTransitive(a.countyLabelCounters, b.countyLabelCounters, c.countyLabelCounters, CountyLabelCount);
    MonotoneTransitive(a.countyCounters, b.countyCounters, c.countyCounters, CountyCount);
    MonotoneTransitive(a.submitterCountyCounters, b.submitterCountyCounters, c.submitterCountyCounters,
      MinedCount);
  }

  /** A (property, label) pair is counted once, on its first sighting. */
  lemma LabelPairsSound(pairs: map<string, PropertyLabelPair>, counters: map<string, LabelCounter>,
                        propertyHash: string, labelName: string, timestamp: int, blockNumber: int)
    requires CountsExact(pairs, PairLabel, counters, LabelCount)
    ensures var id := Join(propertyHash, labelName);
      var pairs' := InsertNew(pairs, id, PropertyLabelPair(propertyHash, labelName, timestamp, blockNumber));
      var counters' := if id in pairs then counters else BumpLabelCounter(counters, labelName);
      CountsExact(pairs', PairLabel, counters', LabelCount) && Grows(pairs, pairs')
      && Monotone(counters, counters', LabelCount)
  {
    var id := Join(propertyHash, labelName);
    if id !in pairs {
      var bumped := BumpLabelCounter(counters, labelName);
      CountNewPair(pairs, PairLabel, counters, LabelCount, id,
        PropertyLabelPair(propertyHash, labelName, timestamp, blockNumber), bumped[labelName]);
      assert bumped == counters[labelName := bumped[labelName]];
    }
  }

  /** A (property, submitter, label) combination is counted once, on its first sighting. */
  lemma SubmitterPairsSound(pairs: map<string, PropertySubmitterPair>, counters: map<string, SubmitterLabelCounter>,
                            propertyHash: string, submitter: string, labelName: string,
                            timestamp: int, blockNumber: int)
    requires CountsExact(pairs, PairSubmitterLabel, counters, SubmitterLabelCount)
    ensures var id := Join(Join(propertyHash, submitter), labelName);
      var pairs' := InsertNew(pairs, id, PropertySubmitterPair(propertyHash, submitter, labelName, timestamp, blockNumber));
      var counters' := if id in pairs then counters else BumpSubmitterLabelCounter(counters, submitter, labelName);
      CountsExact(pairs', PairSubmitterLabel, counters', SubmitterLabelCount) && Grows(pairs, pairs')
      && Monotone(counters, counters', SubmitterLabelCount)
  {
    var id := Join(Join(propertyHash, submitter), labelName);
    if id !in pairs {
      var counterId := Join(submitter, labelName);
      var bumped := BumpSubmitterLabelCounter(counters, submitter, labelName);
      CountNewPair(pairs, PairSubmitterLabel, counters, SubmitterLabelCount, id,
        PropertySubmitterPair(propertyHash, submitter, labelName, timestamp, blockNumber), bumped[counterId]);
      assert bumped == counters[counterId := bumped[counterId]];
    }
  }

  /** The label block keeps both label counts exact and only adds pairs and raises counters. */
  lemma TrackLabelSound(s: Store, propertyHash: string, submitter: string, labelName: string,
                        timestamp: int, blockNumber: int)
    requires LabelTablesExact(s)
    ensures var r := TrackLabel(s, propertyHash, submitter, labelName, timestamp, blockNumber);
      LabelTablesExact(r) && Extends(s, r)
  {
    LabelPairsSound(s.labelPairs, s.labelCounters, propertyHash, labelName, timestamp, blockNumber);
    SubmitterPairsSound(s.submitterPairs, s.submitterLabelCounters, propertyHash, submitter, labelName,
      timestamp, blockNumber);
  }

  /** The submitters' counters stay well formed, and no total goes down. */
  lemma TrackSubmitterWellFormed(counters: map<string, SubmitterCountyCounter>,
                                 submitter: string, county: string, timestamp: int, blockNumber: int)
    requires CountersWellFormed(counters)
    ensures var counters' := TrackSubmitter(counters, submitter, county, timestamp, blockNumber);
      CountersWellFormed(counters') && Monotone(counters, counters', MinedCount)
  {
  }

  /** Every recorded submitter-county pair, old or new, has its county in the submitter's list. */
  lemma TrackSubmitterListsPairs(pairs: map<string, SubmitterCountyPair>,
                                 counters: map<string, SubmitterCountyCounter>,
                                 submitter: string, county: string, timestamp: int, blockNumber: int)
    requires forall k :: k in pairs ==>
      pairs[k].submitter in counters && pairs[k].county in counters[pairs[k].submitter].uniqueCounties
    ensures var pairs' := InsertNew(pairs, Join(submitter, county),
                            SubmitterCountyPair(submitter, county, timestamp, blockNumber));
      var counters' := TrackSubmitter(counters, submitter, county, timestamp, blockNumber);
      forall k :: k in pairs' ==>
        pairs'[k].submitter in counters' && pairs'[k].county in counters'[pairs'[k].submitter].uniqueCounties
  {
    var id := Join(submitter, county);
    var pairs' := InsertNew(pairs, id, SubmitterCountyPair(submitter, county, timestamp, blockNumber));
    var counters' := TrackSubmitter(counters, submitter, county, timestamp, blockNumber);
    forall k | k in pairs'
      ensures pairs'[k].submitter in counters' && pairs'[k].county in counters'[pairs'[k].submitter].uniqueCounties
    {
      if k in pairs {
        var p := pairs[k];
        assert pairs'[k] == p;
        if p.submitter != submitter {
          assert counters'[p.submitter] == counters[p.submitter];
        }
      }
    }
  }

  /** Every county in a submitter's list, old or new, has its submitter-county pair recorded. */
  lemma TrackSubmitterPairsLists(pairs: map<string, SubmitterCountyPair>,
                                 counters: map<string, SubmitterCountyCounter>,
                                 submitter: string, county: string, timestamp: int, blockNumber: int)
    requires forall sub, c :: sub in counters && c in counters[sub].uniqueCounties ==> Join(sub, c) in pairs
    ensures var pairs' := InsertNew(pairs, Join(submitter, county),
                            SubmitterCountyPair(submitter, county, timestamp, blockNumber));
      var counters' := TrackSubmitter(counters, submitter, county, timestamp, blockNumber);
      forall sub, c :: sub in counters' && c in counters'[sub].uniqueCounties ==> Join(sub, c) in pairs'
  {
    var pairs' := InsertNew(pairs, Join(submitter, county),
                    SubmitterCountyPair(submitter, county, timestamp, blockNumber));
    var counters' := TrackSubmitter(counters, submitter, county, timestamp, blockNumber);
    forall sub, c | sub in counters' && c in counters'[sub].uniqueCounties
      ensures Join(sub, c) in pairs'
    {
      if sub != submitter {
        assert counters'[sub] == counters[sub];
      } else if c != county && submitter in counters {
        assert c in counters[submitter].uniqueCounties;
      }
    }
  }

  /** After a county sighting the pair is recorded and the county is listed for the submitter. */
  lemma TrackSubmitterAgrees(pairs: map<string, SubmitterCountyPair>, counters: map<string, SubmitterCountyCounter>,
                             submitter: string, county: string, timestamp: int, blockNumber: int)
    requires CountyTablesAgree(pairs, counters)
    ensures var pairs' := InsertNew(pairs, Join(submitter, county),
                            SubmitterCountyPair(submitter, county, timestamp, blockNumber));
      var counters' := TrackSubmitter(counters, submitter, county, timestamp, blockNumber);
      CountyTablesAgree(pairs', counters') && Grows(pairs, pairs')
  {
    TrackSubmitterListsPairs(pairs, counters, submitter, county, timestamp, blockNumber);
    TrackSubmitterPairsLists(pairs, counters, submitter, county, timestamp, blockNumber);
  }

  /** The submitter-county-label pair is recorded before its counter exists. */
  lemma TrackCountyLabelSound(s: Store, submitter: string, county: string, labelName: string,
                              timestamp: int, blockNumber: int)
    requires forall id :: id in s.countyLabelCounters ==> id in s.countyLabelPairs
    ensures var r := TrackCountyLabel(s, submitter, county, labelName, timestamp, blockNumber);
      && (forall id :: id in r.countyLabelCounters ==> id in r.countyLabelPairs)
      && Grows(s.countyLabelPairs, r.countyLabelPairs)
      && Monotone(s.countyLabelCounters, r.countyLabelCounters, CountyLabelCount)
  {
  }

  /** No county's count goes down. */
  lemma TrackCountyCounterMonotone(m: map<string, CountyCounter>, county: string)
    ensures Monotone(m, TrackCountyCounter(m, county), CountyCount)
  {
    var r := TrackCountyCounter(m, county);
    forall k | k in m ensures k in r && CountyCount(m[k]) <= CountyCount(r[k]) {
      if k != county {
        assert r[k] == m[k];
      }
    }
  }

  /** The county block keeps the county tables sound. */
  lemma TrackCountyTablesSound(s: Store, submitter: string, county: string, labelName: Option<string>,
                               timestamp: int, blockNumber: int)
    requires CountyTablesSound(s)
    ensures CountyTablesSound(TrackCounty(s, submitter, county, labelName, timestamp, blockNumber))
  {
    var r := TrackCounty(s, submitter, county, labelName, timestamp, blockNumber);
    TrackSubmitterWellFormed(s.submitterCountyCounters, submitter, county, timestamp, blockNumber);
    TrackSubmitterAgrees(s.countyPairs, s.submitterCountyCounters, submitter, county, timestamp, blockNumber);
    if LabelQualifies(labelName) {
      TrackCountyLabelSound(s, submitter, county, labelName.value, timestamp, blockNumber);
    }
  }

  /** The county block only grows the store: no record is dropped and no count goes down. */
  lemma TrackCountyExtends(s: Store, submitter: string, county: string, labelName: Option<string>,
                           timestamp: int, blockNumber: int)
    requires CountyTablesSound(s)
    ensures Extends(s, TrackCounty(s, submitter, county, labelName, timestamp, blockNumber))
  {
    var r := TrackCounty(s, submitter, county, labelName, timestamp, blockNumber);
    TrackSubmitterWellFormed(s.submitterCountyCounters, submitter, county, timestamp, blockNumber);
    if LabelQualifies(labelName) {
      TrackCountyLabelSound(s, submitter, county, labelName.value, timestamp, blockNumber);
    } else {
      assert r.countyLabelPairs == s.countyLabelPairs && r.countyLabelCounters == s.countyLabelCounters;
    }
    TrackCountyCounterMonotone(s.countyCounters, county);
  }

  /** The county block keeps the county tables sound and only grows the store. */
  lemma TrackCountySound(s: Store, submitter: string, county: string, labelName: Option<string>,
                         timestamp: int, blockNumber: int)
    requires CountyTablesSound(s)
    ensures var r := TrackCounty(s, submitter, county, labelName, timestamp, blockNumber);
      CountyTablesSound(r) && Extends(s, r)
  {
    TrackCountyTablesSound(s, submitter, county, labelName, timestamp, blockNumber);
    TrackCountyExtends(s, submitter, county, labelName, timestamp, blockNumber);
  }

  /** The invariant is the label half and the county half, each about its own tables. */
  lemma InvOfHalves(labels: Store, counties: Store, r: Store)
    requires LabelTablesExact(labels) && CountyTablesSound(counties)
    requires r.labelPairs == labels.labelPairs && r.labelCounters == labels.labelCounters
    requires r.submitterPairs == labels.submitterPairs && r.submitterLabelCounters == labels.submitterLabelCounters
    requires r.countyPairs == counties.countyPairs && r.countyLabelPairs == counties.countyLabelPairs
    requires r.countyLabelCounters == counties.countyLabelCounters
    requires r.submitterCountyCounters == counties.submitterCountyCounters
    ensures Inv(r)
  {
  }

  /** Saving a property record touches none of the aggregate tables. */
  lemma SaveSound(s: Store, id: string, p: Property)
    requires Inv(s)
    ensures var s0 := s.(properties := s.properties[id := p]);
      Inv(s0) && Extends(s, s0)
  {
    var s0 := s.(properties := s.properties[id := p]);
    assert s0.labelPairs == s.labelPairs && s0.labelCounters == s.labelCounters;
    assert s0.submitterPairs == s.submitterPairs && s0.submitterLabelCounters == s.submitterLabelCounters;
    assert s0.countyPairs == s.countyPairs && s0.countyLabelPairs == s.countyLabelPairs;
    assert s0.countyLabelCounters == s.countyLabelCounters && s0.countyCounters == s.countyCounters;
    assert s0.submitterCountyCounters == s.submitterCountyCounters;
  }

  /** Both aggregate blocks together keep the invariant and only grow the store. */
  lemma AggregateSound(s: Store, p: Property)
    requires Inv(s)
    ensures Inv(Aggregate(s, p)) && Extends(s, Aggregate(s, p))
  {
    var s1 := if HasCounty(p)
      then TrackCounty(s, p.submitter, p.county.value, p.labelName, p.timestamp, p.blockNumber) else s;
    if HasCounty(p) {
      TrackCountySound(s, p.submitter, p.county.value, p.labelName, p.timestamp, p.blockNumber);
      InvOfHalves(s, s1, s1);
    } else {
      assert Extends(s, s);
    }
    if LabelQualifies(p.labelName) {
      var s2 := TrackLabel(s1, p.propertyHash, p.submitter, p.labelName.value, p.timestamp, p.blockNumber);
      TrackLabelSound(s1, p.propertyHash, p.submitter, p.labelName.value, p.timestamp, p.blockNumber);
      InvOfHalves(s2, s1, s2);
      ExtendsTransitive(s, s1, s2);
    }
  }

  /** Saving the property and running both blocks keeps the invariant and only grows the store. */
  lemma ProcessEventSound(s: Store, host: Host, trace: Trace, e: Event)
    requires Inv(s)
    ensures var r := ProcessEvent(s, host, trace, e);
      r.Done? ==> Inv(r.value) && Extends(s, r.value)
  {
    var r := ProcessEvent(s, host, trace, e);
    if r.Done? {
      PropertySaved(s, host, trace, e);
      var p := MakeProperty(e, EventContent(host, trace, e).value, EventCounty(host, trace, e).value);
      var s0 := s.(properties := s.properties[PropertyId(e) := p]);
      assert r.value == Aggregate(s0, p);
      SaveSound(s, PropertyId(e), p);
      AggregateSound(s0, p);
      ExtendsTransitive(s, s0, r.value);
    }
  }

  /**
    The indexer's run over a sequence of events: each event is handled in
    order, and an aborted handler stops the run.
  */
  function Run(s: Store, host: Host, trace: Trace, events: seq<Event>): (r: Outcome<Store>)
    ensures r.Done? ==> s.properties.Keys <= r.value.properties.Keys
    ensures r.Done? ==> forall e :: e in events ==> PropertyId(e) in r.value.properties
    decreases |events|
  {
    if |events| == 0 then Done(s, trace)
    else match ProcessEvent(s, host, trace, events[0])
      case Aborted(t) => Aborted(t)
      case Done(s1, t) => Run(s1, host, t, events[1..])
  }

  /** Any run that finishes keeps the invariant and only grows the store. */
  lemma {:induction false} RunSound(s: Store, host: Host, trace: Trace, events: seq<Event>)
    requires Inv(s)
    ensures var r := Run(s, host, trace, events);
      r.Done? ==> Inv(r.value) && Extends(s, r.value)
    decreases |events|
  {
    if |events| > 0 {
      var step := ProcessEvent(s, host, trace, events[0]);
      ProcessEventSound(s, host, trace, events[0]);
      if step.Done? {
        RunSound(step.value, host, step.trace, events[1..]);
        var r := Run(s, host, trace, events);
        if r.Done? {
          ExtendsTransitive(s, step.value, r.value);
        }
      }
    }
  }

  /** From the empty store, every finished run leaves the label counters equal to their pair counts. */
  lemma LabelCountersExact(host: Host, trace: Trace, events: seq<Event>, l: string)
    ensures var r := Run(EmptyStore, host, trace, events);
      r.Done? && l in r.value.labelCounters ==>
        r.value.labelCounters[l].uniquePropertyCount == |KeysWhere(r.value.labelPairs, PairLabel, l)|
  {
    EmptyStoreInv();
    RunSound(EmptyStore, host, trace, events);
  }
}
