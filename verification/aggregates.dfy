/**
  The aggregate updates `handleDataSubmitted` performs after saving the
  property: the county block, run when the property has a non-empty
  county, and the label block, run when the label qualifies. Each
  load-or-create of the source is a lookup with a default record.
*/
module Aggregates {
  import opened Wrappers
  import opened Schema

  /** The label the mapping records when the content could not be fetched. */
  const TimeoutLabel: string := "TIMEOUT"

  /** The guard `property.label && property.label!.length > 0 && property.label! != "TIMEOUT"`. */
  predicate LabelQualifies(labelName: Option<string>) {
    labelName.Some? && |labelName.value| > 0 && labelName.value != TimeoutLabel
  }

  predicate NoDup(s: seq<string>) {
    forall i, j :: 0 <= i < j < |s| ==> s[i] != s[j]
  }

  /** The scan of `uniqueCounties` for the current county. */
  method ContainsCounty(counties: seq<string>, county: string) returns (countyExists: bool)
    ensures countyExists <==> county in counties
  {
    countyExists := false;
    for i := 0 to |counties|
      invariant county !in counties[..i]
    {
      if counties[i] == county {
        countyExists := true;
        break;
      }
      assert counties[..i + 1] == counties[..i] + [counties[i]];
    }
  }

  /** `counties.push(county)` unless it is already listed. */
  function AddCounty(counties: seq<string>, county: string): (r: seq<string>)
    ensures NoDup(counties) ==> NoDup(r)
    ensures forall c :: c in r <==> c in counties || c == county
    ensures |counties| <= |r| <= |counties| + 1 && r[..|counties|] == counties
  {
    if county in counties then counties else counties + [county]
  }

  /** A submitter's county counter as first created. */
  function NewSubmitterCounter(submitter: string, timestamp: int, blockNumber: int): (c: SubmitterCountyCounter)
    ensures c.submitter == submitter && CountiesConsistent(c) && c.uniqueCountyCount <= c.totalPropertiesMined
    ensures forall x :: x !in c.uniqueCounties
  {
    SubmitterCountyCounter(submitter, [], 0, 0, timestamp, timestamp, blockNumber, 0.0)
  }

  /** `uniqueCountyCount` is the length of a duplicate-free `uniqueCounties`. */
  predicate CountiesConsistent(c: SubmitterCountyCounter) {
    NoDup(c.uniqueCounties) && c.uniqueCountyCount == |c.uniqueCounties|
  }

  /**
    One qualifying event for the submitter: the county is listed, the total
    rises by one, the last activity moves to this event, and the rate is
    recomputed only when time has passed since the first activity.
  */
  function BumpSubmitterCounter(c: SubmitterCountyCounter, county: string, timestamp: int, blockNumber: int)
    : (r: SubmitterCountyCounter)
    ensures r.submitter == c.submitter && r.firstActivityTimestamp == c.firstActivityTimestamp
    ensures r.totalPropertiesMined == c.totalPropertiesMined + 1
    ensures r.lastActivityTimestamp == timestamp && r.lastActivityBlockNumber == blockNumber
    ensures county in r.uniqueCounties
    ensures forall x :: x in r.uniqueCounties <==> x in c.uniqueCounties || x == county
    ensures CountiesConsistent(c) ==> CountiesConsistent(r) && r.uniqueCountyCount <= c.uniqueCountyCount + 1
  {
    var known := county in c.uniqueCounties;
    var counties := AddCounty(c.uniqueCounties, county);
    var total := c.totalPropertiesMined + 1;
    var elapsed := timestamp - c.firstActivityTimestamp;
    c.(uniqueCounties := counties,
       uniqueCountyCount := if known then c.uniqueCountyCount else |counties|,
       totalPropertiesMined := total,
       lastActivityTimestamp := timestamp,
       lastActivityBlockNumber := blockNumber,
       propertiesPerSecond := if elapsed > 0 then Rate(total, elapsed) else c.propertiesPerSecond)
  }

  /** Properties per second over `elapsed` seconds. */
  function Rate(total: int, elapsed: int): (rate: real)
    requires elapsed > 0
    ensures rate * (elapsed as real) == total as real
  {
    (total as real) / (elapsed as real)
  }

  /**
    The mining speed: once time has passed since the first activity, the
    rate times the elapsed seconds is the total; otherwise it is kept.
  */
  lemma MiningRate(c: SubmitterCountyCounter, county: string, timestamp: int, blockNumber: int)
    ensures var r := BumpSubmitterCounter(c, county, timestamp, blockNumber);
      var elapsed := timestamp - c.firstActivityTimestamp;
      if elapsed > 0 then r.propertiesPerSecond * (elapsed as real) == r.totalPropertiesMined as real
      else r.propertiesPerSecond == c.propertiesPerSecond
  {
  }

  /** The id shared by a submitter-county-label pair and its counter. */
  function CountyLabelId(submitter: string, county: string, labelName: string): string {
    Join(Join(submitter, county), labelName)
  }

  /**
    The id is readable back when the submitter and the county hold no `-`;
    the submitter is always a hex string, but a county may hold one.
  */
  lemma CountyLabelIdInjective(sub1: string, county1: string, label1: string,
                               sub2: string, county2: string, label2: string)
    requires '-' !in sub1 && '-' !in sub2 && '-' !in county1 && '-' !in county2
    requires CountyLabelId(sub1, county1, label1) == CountyLabelId(sub2, county2, label2)
    ensures sub1 == sub2 && county1 == county2 && label1 == label2
  {
    assert CountyLabelId(sub1, county1, label1) == Join(sub1, Join(county1, label1));
    assert CountyLabelId(sub2, county2, label2) == Join(sub2, Join(county2, label2));
    JoinInjective(sub1, Join(county1, label1), sub2, Join(county2, label2));
    JoinInjective(county1, label1, county2, label2);
  }

  /** A county with a `-` can share its id with another county and label, and so its counter. */
  lemma CountyLabelIdCollision()
    ensures CountyLabelId("0xab", "Miami-Dade", "x") == CountyLabelId("0xab", "Miami", "Dade-x")
  {
  }

  /** The pair is recorded once; its counter rises by one on every event. */
  function TrackCountyLabel(s: Store, submitter: string, county: string, labelName: string, timestamp: int, blockNumber: int)
    : (r: Store)
    ensures var id := CountyLabelId(submitter, county, labelName);
      && id in r.countyLabelCounters
      && r.countyLabelCounters[id].propertiesMined
         == (if id in s.countyLabelCounters then s.countyLabelCounters[id].propertiesMined else 0) + 1
      && r.countyLabelCounters[id].lastActivityTimestamp == timestamp
      && (forall k :: k in r.countyLabelCounters && k != id ==>
            k in s.countyLabelCounters && r.countyLabelCounters[k] == s.countyLabelCounters[k])
      && (forall k :: k in s.countyLabelCounters ==> k in r.countyLabelCounters)
      && r.countyLabelPairs == InsertNew(s.countyLabelPairs, id,
           SubmitterCountyLabelPair(submitter, county, labelName, timestamp, blockNumber))
    ensures r == s.(countyLabelPairs := r.countyLabelPairs, countyLabelCounters := r.countyLabelCounters)
  {
    var id := CountyLabelId(submitter, county, labelName);
    var pairs := InsertNew(s.countyLabelPairs, id,
      SubmitterCountyLabelPair(submitter, county, labelName, timestamp, blockNumber));
    var c := if id in s.countyLabelCounters then s.countyLabelCounters[id]
      else SubmitterCountyLabelCounter(submitter, county, labelName, 0, timestamp, blockNumber);
    var bumped := c.(propertiesMined := c.propertiesMined + 1,
                     lastActivityTimestamp := timestamp,
                     lastActivityBlockNumber := blockNumber);
    s.(countyLabelPairs := pairs, countyLabelCounters := s.countyLabelCounters[id := bumped])
  }

  /** The submitter's county counter after this event; every other submitter's is kept. */
  function TrackSubmitter(m: map<string, SubmitterCountyCounter>, submitter: string, county: string,
                          timestamp: int, blockNumber: int): (r: map<string, SubmitterCountyCounter>)
    ensures submitter in r
    ensures forall k :: k in r <==> k in m || k == submitter
    ensures forall k :: k in m && k != submitter ==> r[k] == m[k]
    ensures var c := r[submitter];
      && c.totalPropertiesMined == (if submitter in m then m[submitter].totalPropertiesMined else 0) + 1
      && county in c.uniqueCounties
      && (submitter in m ==> forall x :: x in m[submitter].uniqueCounties ==> x in c.uniqueCounties)
      && (submitter in m ==> forall x :: x in c.uniqueCounties ==> x in m[submitter].uniqueCounties || x == county)
      && (submitter in m ==> CountiesConsistent(m[submitter]) ==>
            CountiesConsistent(c) && c.uniqueCountyCount <= m[submitter].uniqueCountyCount + 1)
      && (submitter !in m ==> c.uniqueCounties == [county] && c.uniqueCountyCount == 1 && c.totalPropertiesMined == 1)
  {
    var c := if submitter in m then m[submitter] else NewSubmitterCounter(submitter, timestamp, blockNumber);
    m[submitter := BumpSubmitterCounter(c, county, timestamp, blockNumber)]
  }

  /** The county's counter rises by one; every other county's is kept. */
  function TrackCountyCounter(m: map<string, CountyCounter>, county: string): (r: map<string, CountyCounter>)
    ensures county in r
    ensures r[county].uniquePropertiesCount == (if county in m then m[county].uniquePropertiesCount else 0) + 1
    ensures forall k :: k in r <==> k in m || k == county
    ensures forall k :: k in m && k != county ==> r[k] == m[k]
  {
    var cc := if county in m then m[county] else CountyCounter(county, 0);
    m[county := cc.(uniquePropertiesCount := cc.uniquePropertiesCount + 1)]
  }

  /**
    The county block, run for a non-empty county: the submitter-county
    pair is recorded if new, the submitter-county-label pair and counter
    are updated when the label qualifies, then the submitter's and the
    county's counters. Each step writes its own tables, so they are
    computed side by side from the store as it was.
  */
  function TrackCounty(s: Store, submitter: string, county: string, labelName: Option<string>,
                       timestamp: int, blockNumber: int): (r: Store)
    ensures r.properties == s.properties
    ensures r.labelPairs == s.labelPairs && r.labelCounters == s.labelCounters
    ensures r.submitterPairs == s.submitterPairs && r.submitterLabelCounters == s.submitterLabelCounters
    ensures r.countyPairs == InsertNew(s.countyPairs, Join(submitter, county),
      SubmitterCountyPair(submitter, county, timestamp, blockNumber))
    ensures !LabelQualifies(labelName) ==>
      r.countyLabelPairs == s.countyLabelPairs && r.countyLabelCounters == s.countyLabelCounters
    ensures LabelQualifies(labelName) ==>
      var t := TrackCountyLabel(s, submitter, county, labelName.value, timestamp, blockNumber);
      r.countyLabelPairs == t.countyLabelPairs && r.countyLabelCounters == t.countyLabelCounters
    ensures r.submitterCountyCounters
      == TrackSubmitter(s.submitterCountyCounters, submitter, county, timestamp, blockNumber)
    ensures r.countyCounters == TrackCountyCounter(s.countyCounters, county)
    ensures submitter in r.submitterCountyCounters
      && county in r.submitterCountyCounters[submitter].uniqueCounties
      && r.submitterCountyCounters[submitter].totalPropertiesMined
         == (if submitter in s.submitterCountyCounters
             then s.submitterCountyCounters[submitter].totalPropertiesMined else 0) + 1
    ensures county in r.countyCounters
      && r.countyCounters[county].uniquePropertiesCount
         == (if county in s.countyCounters then s.countyCounters[county].uniquePropertiesCount else 0) + 1
    ensures Join(submitter, county) in r.countyPairs
    ensures LabelQualifies(labelName) ==>
      var id := CountyLabelId(submitter, county, labelName.value);
      && id in r.countyLabelCounters && id in r.countyLabelPairs
      && r.countyLabelCounters[id].propertiesMined
         == (if id in s.countyLabelCounters then s.countyLabelCounters[id].propertiesMined else 0) + 1
  {
    var t := if LabelQualifies(labelName)
      then TrackCountyLabel(s, submitter, county, labelName.value, timestamp, blockNumber) else s;
    s.(countyPairs := InsertNew(s.countyPairs, Join(submitter, county),
         SubmitterCountyPair(submitter, county, timestamp, blockNumber)),
       countyLabelPairs := t.countyLabelPairs,
       countyLabelCounters := t.countyLabelCounters,
       submitterCountyCounters := TrackSubmitter(s.submitterCountyCounters, submitter, county, timestamp, blockNumber),
       countyCounters := TrackCountyCounter(s.countyCounters, county))
  }

  /** A label counter rises by one, created at zero on the label's first pair; every other is kept. */
  function BumpLabelCounter(m: map<string, LabelCounter>, labelName: string): (r: map<string, LabelCounter>)
    ensures labelName in r
    ensures r[labelName].uniquePropertyCount
      == (if labelName in m then m[labelName].uniquePropertyCount else 0) + 1
    ensures forall k :: k in r <==> k in m || k == labelName
    ensures forall k :: k in m && k != labelName ==> r[k] == m[k]
  {
    var c := if labelName in m then m[labelName] else LabelCounter(labelName, 0);
    m[labelName := c.(uniquePropertyCount := c.uniquePropertyCount + 1)]
  }

  /** The same for the counter of a submitter and label, whose id is `submitter-label`. */
  function BumpSubmitterLabelCounter(m: map<string, SubmitterLabelCounter>, submitter: string, labelName: string)
    : (r: map<string, SubmitterLabelCounter>)
    ensures var id := Join(submitter, labelName);
      && id in r
      && r[id].uniquePropertyCount == (if id in m then m[id].uniquePropertyCount else 0) + 1
      && (forall k :: k in r <==> k in m || k == id)
      && (forall k :: k in m && k != id ==> r[k] == m[k])
  {
    var id := Join(submitter, labelName);
    var c := if id in m then m[id] else SubmitterLabelCounter(submitter, labelName, 0);
    m[id := c.(uniquePropertyCount := c.uniquePropertyCount + 1)]
  }

  /**
    The label block, run for a qualifying label. A (property, label) pair
    seen for the first time is recorded and bumps the label's counter; a
    (property, submitter, label) combination seen for the first time is
    recorded and bumps the submitter's counter for the label. Only the
    label tables change.
  */
  function TrackLabel(s: Store, propertyHash: string, submitter: string, labelName: string,
                      timestamp: int, blockNumber: int): (r: Store)
    ensures r == s.(labelPairs := r.labelPairs, labelCounters := r.labelCounters,
              submitterPairs := r.submitterPairs, submitterLabelCounters := r.submitterLabelCounters)
    ensures r.labelPairs == InsertNew(s.labelPairs, Join(propertyHash, labelName),
      PropertyLabelPair(propertyHash, labelName, timestamp, blockNumber))
    ensures r.submitterPairs == InsertNew(s.submitterPairs, Join(Join(propertyHash, submitter), labelName),
      PropertySubmitterPair(propertyHash, submitter, labelName, timestamp, blockNumber))
    ensures Join(propertyHash, labelName) in s.labelPairs ==> r.labelCounters == s.labelCounters
    ensures Join(Join(propertyHash, submitter), labelName) in s.submitterPairs ==>
      r.submitterLabelCounters == s.submitterLabelCounters
  {
    var pairId := Join(propertyHash, labelName);
    var submitterPairId := Join(Join(propertyHash, submitter), labelName);
    s.(labelPairs := InsertNew(s.labelPairs, pairId,
         PropertyLabelPair(propertyHash, labelName, timestamp, blockNumber)),
       labelCounters := if pairId in s.labelPairs then s.labelCounters
         else BumpLabelCounter(s.labelCounters, labelName),
       submitterPairs := InsertNew(s.submitterPairs, submitterPairId,
         PropertySubmitterPair(propertyHash, submitter, labelName, timestamp, blockNumber)),
       submitterLabelCounters := if submitterPairId in s.submitterPairs then s.submitterLabelCounters
         else BumpSubmitterLabelCounter(s.submitterLabelCounters, submitter, labelName))
  }
}
