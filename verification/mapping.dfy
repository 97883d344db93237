/**
  The event handlers `handleDataSubmitted` and `handleDataGroupHeartBeat`.
  Both carry the same fields and run the same step: save a property record
  for the event, with the content and label read from the data hash's
  document and the county found by the resolver, then update the county
  and label aggregates. A step that reaches a graph-ts assertion aborts
  and writes nothing.
*/
module Mapping {
  import opened Wrappers
  import opened Binary
  import opened Json
  import opened Ipfs
  import opened Schema
  import opened Aggregates
  import Text
  import Cid
  import Resolver

  /** A Solidity `bytes32`. */
  type Bytes32 = b: Bytes | |b| == 32 witness seq(32, _ => 0)

  /** A Solidity `address`. */
  type Address = b: Bytes | |b| == 20 witness seq(20, _ => 0)

  /** The event parameters and the block and transaction data the step reads. */
  datatype Event = Event(
    transactionHash: Bytes32,
    logIndex: nat,
    propertyHash: Bytes32,
    dataGroupHash: Bytes32,
    submitter: Address,
    dataHash: Bytes32,
    timestamp: int,
    blockNumber: int)

  /** Attempts for the content document: `fetchFromIPFSWithRetry(cid, 3)`. */
  const ContentRetries: int := 3

  const LabelPath: seq<string> := ["label"]

  /** The prefix of `dataContent` when the content could not be fetched. */
  const TimeoutPrefix: string := "TIMEOUT:"

  /** The `dataContent` and `label` fields the content document yields. */
  datatype Content = Content(dataContent: string, labelName: Option<string>)

  /**
    The content and label of a property from the fetch result. No answer
    gives the timeout marker. An answer is decoded as text; its label is the
    `label` string of the parsed document, and is null when the document
    does not parse or has no `label`. `None` is an abort: the document is
    not an object, or its `label` is not a string.
  */
  function DeriveContent(host: Host, result: Option<Bytes>, cid: string): (c: Option<Content>)
    ensures result.None? ==> c == Some(Content(TimeoutPrefix + cid, Some(TimeoutLabel)))
    ensures result.Some? && c.Some? ==> c.value.dataContent == host.text(result.value)
    ensures result.Some? ==>
      (c.None? <==> host.parse(result.value).Some? && Get(host.parse(result.value).value, LabelPath) == Trap)
  {
    match result
    case None => Some(Content(TimeoutPrefix + cid, Some(TimeoutLabel)))
    case Some(bytes) =>
      var text := host.text(bytes);
      match host.parse(bytes)
      case None => Some(Content(text, None))
      case Some(doc) =>
        match Get(doc, LabelPath)
        case Found(l) => Some(Content(text, Some(l)))
        case Missing => Some(Content(text, None))
        case Trap => None
  }

  /** A fetched document yields label `l` exactly when it parses and its `label` field is the string `l`. */
  lemma LabelFromDocument(host: Host, bytes: Bytes, cid: string, l: string)
    ensures var c := DeriveContent(host, Some(bytes), cid);
      (c.Some? && c.value.labelName == Some(l)) <==>
        (host.parse(bytes).Some? && At(host.parse(bytes).value, LabelPath) == Some(JString(l)))
  {
    if host.parse(bytes).Some? {
      GetFound(host.parse(bytes).value, LabelPath, l);
    }
  }

  /** `if (county)`: an AssemblyScript string is truthy when it is non-null and non-empty. */
  function CountyField(county: Option<string>): Option<string> {
    if county.Some? && county.value != "" then county else None
  }

  /** `transaction.hash.toHexString() + "-" + logIndex.toString()`. */
  function PropertyId(e: Event): string {
    Join(Text.Hex(e.transactionHash), Text.Decimal(e.logIndex))
  }

  /** Two events get the same property id only when they are the same log of the same transaction. */
  lemma PropertyIdInjective(e1: Event, e2: Event)
    requires PropertyId(e1) == PropertyId(e2)
    ensures e1.transactionHash == e2.transactionHash && e1.logIndex == e2.logIndex
  {
    JoinInjective(Text.Hex(e1.transactionHash), Text.Decimal(e1.logIndex),
                  Text.Hex(e2.transactionHash), Text.Decimal(e2.logIndex));
    Text.HexInjective(e1.transactionHash, e2.transactionHash);
    Text.DecimalInjective(e1.logIndex, e2.logIndex);
  }

  /** The property record for an event, its content and its resolved county. */
  function MakeProperty(e: Event, content: Content, county: Option<string>): (p: Property)
    ensures p.owner == p.submitter
  {
    Property(
      propertyHash := Text.Hex(e.propertyHash),
      dataGroupHash := Text.Hex(e.dataGroupHash),
      submitter := Text.Hex(e.submitter),
      dataHash := Text.Hex(e.dataHash),
      owner := Text.Hex(e.submitter),
      dataContent := content.dataContent,
      labelName := content.labelName,
      county := CountyField(county),
      timestamp := e.timestamp,
      blockNumber := e.blockNumber,
      transactionHash := Text.Hex(e.transactionHash))
  }

  /** The county block runs for a property with a county; `property.county!.length > 0`. */
  predicate HasCounty(p: Property) {
    p.county.Some? && |p.county.value| > 0
  }

  /**
    The aggregate updates after the save. A property without a county
    leaves the county tables alone, one whose label does not qualify leaves
    the label tables alone, and the properties table is never touched.
  */
  function Aggregate(s: Store, p: Property): (r: Store)
    ensures r.properties == s.properties
    ensures !HasCounty(p) ==>
      && r.countyPairs == s.countyPairs && r.countyLabelPairs == s.countyLabelPairs
      && r.countyLabelCounters == s.countyLabelCounters
      && r.submitterCountyCounters == s.submitterCountyCounters && r.countyCounters == s.countyCounters
    ensures !LabelQualifies(p.labelName) ==>
      && r.labelPairs == s.labelPairs && r.labelCounters == s.labelCounters
      && r.submitterPairs == s.submitterPairs && r.submitterLabelCounters == s.submitterLabelCounters
  {
    var s1 := if HasCounty(p)
      then TrackCounty(s, p.submitter, p.county.value, p.labelName, p.timestamp, p.blockNumber) else s;
    if LabelQualifies(p.labelName)
    then TrackLabel(s1, p.propertyHash, p.submitter, p.labelName.value, p.timestamp, p.blockNumber)
    else s1
  }

  /** The content fetch of an event. */
  function ContentFetch(host: Host, trace: Trace, e: Event): Fetched {
    FetchWithRetry(host, trace, Cid.CidOf(e.dataHash), ContentRetries)
  }

  /** One event step, shared by both handlers. */
  function ProcessEvent(s: Store, host: Host, trace: Trace, e: Event): (r: Outcome<Store>)
    ensures r.Done? ==> r.value.properties.Keys == s.properties.Keys + {PropertyId(e)}
  {
    var cid := Cid.CidOf(e.dataHash);
    var f := FetchWithRetry(host, trace, cid, ContentRetries);
    match DeriveContent(host, f.result, cid)
    case None => Aborted(f.trace)
    case Some(content) =>
      match Resolver.ExtractCountyFromPropertyHash(host, f.trace, Text.Hex(e.propertyHash))
      case Aborted(t) => Aborted(t)
      case Done(county, t) =>
        var p := MakeProperty(e, content, county);
        Done(Aggregate(s.(properties := s.properties[PropertyId(e) := p]), p), t)
  }

  function HandleDataSubmitted(s: Store, host: Host, trace: Trace, e: Event): (r: Outcome<Store>)
    ensures r.Done? ==> r.value.properties.Keys == s.properties.Keys + {PropertyId(e)}
  {
    ProcessEvent(s, host, trace, e)
  }

  function HandleDataGroupHeartBeat(s: Store, host: Host, trace: Trace, e: Event): (r: Outcome<Store>)
    ensures r.Done? ==> r.value.properties.Keys == s.properties.Keys + {PropertyId(e)}
  {
    ProcessEvent(s, host, trace, e)
  }

  /** The two handlers agree on every store, host, trace and event. */
  lemma HandlersAgree(s: Store, host: Host, trace: Trace, e: Event)
    ensures HandleDataSubmitted(s, host, trace, e) == HandleDataGroupHeartBeat(s, host, trace, e)
  {
  }

  /** The content the step derives for an event, when it does not abort. */
  function EventContent(host: Host, trace: Trace, e: Event): Option<Content> {
    DeriveContent(host, ContentFetch(host, trace, e).result, Cid.CidOf(e.dataHash))
  }

  /** The county lookup the step makes, after the content fetch. */
  function EventCounty(host: Host, trace: Trace, e: Event): Outcome<Option<string>> {
    Resolver.ExtractCountyFromPropertyHash(host, ContentFetch(host, trace, e).trace, Text.Hex(e.propertyHash))
  }

  /**
    The record is always saved: the step finishes exactly when neither the
    label read nor the county lookup aborts, and then the store holds the
    event's property under its id, with every other property unchanged.
  */
  lemma PropertySaved(s: Store, host: Host, trace: Trace, e: Event)
    ensures var r := ProcessEvent(s, host, trace, e);
      r.Done? <==> EventContent(host, trace, e).Some? && EventCounty(host, trace, e).Done?
    ensures var r := ProcessEvent(s, host, trace, e);
      r.Done? ==>
        var p := MakeProperty(e, EventContent(host, trace, e).value, EventCounty(host, trace, e).value);
        && PropertyId(e) in r.value.properties
        && r.value.properties[PropertyId(e)] == p
        && r.value.properties == s.properties[PropertyId(e) := p]
        && r.trace == EventCounty(host, trace, e).trace
  {
  }

  /**
    The saved county is the resolver's answer when that is a non-empty
    string and null otherwise, and the county block runs exactly when it
    is non-empty.
  */
  lemma CountyRecorded(s: Store, host: Host, trace: Trace, e: Event)
    ensures var r := ProcessEvent(s, host, trace, e);
      r.Done? ==>
        var answer := EventCounty(host, trace, e).value;
        var p := r.value.properties[PropertyId(e)];
        && (p.county.Some? <==> answer.Some? && answer.value != "")
        && (p.county.Some? ==> p.county == answer)
        && (HasCounty(p) <==> answer.Some? && |answer.value| > 0)
  {
    PropertySaved(s, host, trace, e);
  }

  /**
    A content fetch with no answer saves the timeout marker: label
    `TIMEOUT`, content `TIMEOUT:` and the identifier, and the label tables
    stay as they were.
  */
  lemma TimeoutRecorded(s: Store, host: Host, trace: Trace, e: Event)
    requires ContentFetch(host, trace, e).result.None?
    ensures var r := ProcessEvent(s, host, trace, e);
      r.Done? ==>
        var p := r.value.properties[PropertyId(e)];
        && p.labelName == Some("TIMEOUT")
        && p.dataContent == "TIMEOUT:" + Cid.CidOf(e.dataHash)
        && r.value.labelPairs == s.labelPairs && r.value.labelCounters == s.labelCounters
        && r.value.submitterPairs == s.submitterPairs
        && r.value.submitterLabelCounters == s.submitterLabelCounters
  {
    PropertySaved(s, host, trace, e);
  }

  /** Null, empty or `TIMEOUT` labels leave every label table unchanged. */
  lemma LabelGate(s: Store, host: Host, trace: Trace, e: Event)
    ensures var r := ProcessEvent(s, host, trace, e);
      r.Done? && !LabelQualifies(r.value.properties[PropertyId(e)].labelName) ==>
        && r.value.labelPairs == s.labelPairs && r.value.labelCounters == s.labelCounters
        && r.value.submitterPairs == s.submitterPairs
        && r.value.submitterLabelCounters == s.submitterLabelCounters
  {
    PropertySaved(s, host, trace, e);
  }

  /**
    The county block of one step: with a county, the submitter's total and
    the county's count rise by one (and the submitter-county-label counter
    when the label qualifies); without one, no county table changes.
  */
  lemma CountyStep(s: Store, host: Host, trace: Trace, e: Event)
    ensures var r := ProcessEvent(s, host, trace, e);
      r.Done? ==>
        var p := r.value.properties[PropertyId(e)];
        if HasCounty(p) then
          var sub, county := p.submitter, p.county.value;
          && sub in r.value.submitterCountyCounters
          && r.value.submitterCountyCounters[sub].totalPropertiesMined
             == (if sub in s.submitterCountyCounters
                 then s.submitterCountyCounters[sub].totalPropertiesMined else 0) + 1
          && county in r.value.countyCounters
          && r.value.countyCounters[county].uniquePropertiesCount
             == (if county in s.countyCounters then s.countyCounters[county].uniquePropertiesCount else 0) + 1
          && county in r.value.submitterCountyCounters[sub].uniqueCounties
          && (LabelQualifies(p.labelName) ==>
                var id := CountyLabelId(sub, county, p.labelName.value);
                && id in r.value.countyLabelCounters
                && r.value.countyLabelCounters[id].propertiesMined
                   == (if id in s.countyLabelCounters then s.countyLabelCounters[id].propertiesMined else 0) + 1)
        else
          && r.value.countyPairs == s.countyPairs && r.value.countyLabelPairs == s.countyLabelPairs
          && r.value.countyLabelCounters == s.countyLabelCounters
          && r.value.submitterCountyCounters == s.submitterCountyCounters
          && r.value.countyCounters == s.countyCounters
  {
    PropertySaved(s, host, trace, e);
    var r := ProcessEvent(s, host, trace, e);
    if r.Done? {
      var p := r.value.properties[PropertyId(e)];
      var s0 := s.(properties := s.properties[PropertyId(e) := p]);
      if HasCounty(p) {
        var s1 := TrackCounty(s0, p.submitter, p.county.value, p.labelName, p.timestamp, p.blockNumber);
      }
    }
  }
}
