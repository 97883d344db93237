/**
  The entities the mapping writes and the store that holds them. Each
  entity kind is a table from its string id to its fields; the id is the
  map key and is not repeated in the record. The schema field `label` is
  `labelName` here, because `label` is a Dafny keyword. Counters that the schema
  declares `Int` are unbounded here, timestamps and block numbers
  (`BigInt`) are `int`, and `propertiesPerSecond` (`BigDecimal`) is `real`.
*/
module Schema {
  import opened Wrappers
  import Text

  /** One submission, keyed by transaction hash and log index. */
  datatype Property = Property(
    propertyHash: string,
    dataGroupHash: string,
    submitter: string,
    dataHash: string,
    owner: string,
    dataContent: string,
    labelName: Option<string>,
    county: Option<string>,
    timestamp: int,
    blockNumber: int,
    transactionHash: string)

  /** First sighting of a (property, label) pair. */
  datatype PropertyLabelPair = PropertyLabelPair(
    propertyHash: string, labelName: string, firstSeenTimestamp: int, firstSeenBlockNumber: int)

  datatype LabelCounter = LabelCounter(labelName: string, uniquePropertyCount: int)

  /** First sighting of a (property, submitter, label) combination. */
  datatype PropertySubmitterPair = PropertySubmitterPair(
    propertyHash: string, submitter: string, labelName: string,
    firstSeenTimestamp: int, firstSeenBlockNumber: int)

  datatype SubmitterLabelCounter = SubmitterLabelCounter(
    submitter: string, labelName: string, uniquePropertyCount: int)

  /** First sighting of a (submitter, county) pair. */
  datatype SubmitterCountyPair = SubmitterCountyPair(
    submitter: string, county: string, firstSeenTimestamp: int, firstSeenBlockNumber: int)

  /** First sighting of a (submitter, county, label) combination. */
  datatype SubmitterCountyLabelPair = SubmitterCountyLabelPair(
    submitter: string, county: string, labelName: string,
    firstSeenTimestamp: int, firstSeenBlockNumber: int)

  datatype SubmitterCountyLabelCounter = SubmitterCountyLabelCounter(
    submitter: string, county: string, labelName: string, propertiesMined: int,
    lastActivityTimestamp: int, lastActivityBlockNumber: int)

  /** A submitter's mining activity across counties. */
  datatype SubmitterCountyCounter = SubmitterCountyCounter(
    submitter: string,
    uniqueCounties: seq<string>,
    uniqueCountyCount: int,
    totalPropertiesMined: int,
    firstActivityTimestamp: int,
    lastActivityTimestamp: int,
    lastActivityBlockNumber: int,
    propertiesPerSecond: real)

  datatype CountyCounter = CountyCounter(county: string, uniquePropertiesCount: int)

  datatype Store = Store(
    properties: map<string, Property>,
    labelPairs: map<string, PropertyLabelPair>,
    labelCounters: map<string, LabelCounter>,
    submitterPairs: map<string, PropertySubmitterPair>,
    submitterLabelCounters: map<string, SubmitterLabelCounter>,
    countyPairs: map<string, SubmitterCountyPair>,
    countyLabelPairs: map<string, SubmitterCountyLabelPair>,
    countyLabelCounters: map<string, SubmitterCountyLabelCounter>,
    submitterCountyCounters: map<string, SubmitterCountyCounter>,
    countyCounters: map<string, CountyCounter>)

  const EmptyStore: Store := Store(map[], map[], map[], map[], map[], map[], map[], map[], map[], map[])

  /** Composite ids join their parts with `-`. */
  function Join(a: string, b: string): string {
    a + "-" + b
  }

  /** Every part after the first is readable back when the first part has no `-`. */
  lemma JoinInjective(a: string, b: string, c: string, d: string)
    requires '-' !in a && '-' !in c && Join(a, b) == Join(c, d)
    ensures a == c && b == d
  {
    Text.SplitAtDash(a, b, c, d);
  }

  /** `load`-or-create for an entity that is written once: an existing record is kept. */
  function InsertNew<V>(m: map<string, V>, k: string, v: V): (r: map<string, V>)
    ensures k in r && r[k] == (if k in m then m[k] else v)
    ensures forall j :: j in m ==> j in r && r[j] == m[j]
    ensures forall j :: j in r && j != k ==> j in m
  {
    if k in m then m else m[k := v]
  }
}
