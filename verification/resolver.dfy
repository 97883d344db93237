/**
  `extractCountyFromPropertyHash`: the county of a property, found by
  following three linked documents. The property document names its seed
  under `relationships.property_seed["/"]`, the seed document names the
  next document under `to["/"]`, and that one holds `county_jurisdiction`.
  Each hop fetches (with up to three attempts), parses and reads one field,
  and the resolver gives up, with null, at the first hop that fails.
*/
module Resolver {
  import opened Wrappers
  import opened Binary
  import opened Json
  import opened Ipfs
  import Text
  import Cid

  /** Attempts per hop: `fetchFromIPFSWithRetry(cid, 3)`. */
  const HopRetries: int := 3

  const SeedPath: seq<string> := ["relationships", "property_seed", "/"]
  const ToPath: seq<string> := ["to", "/"]
  const CountyPath: seq<string> := ["county_jurisdiction"]

  /** One hop: the next link, a failure that ends the walk with null, or an abort. */
  datatype Hop = Link(target: string, trace: Trace) | Broken(trace: Trace) | Trapped(trace: Trace)

  /** Fetch `cid`, parse it, and read the string at `path`. */
  function Follow(host: Host, trace: Trace, cid: string, path: seq<string>): (h: Hop)
    requires |path| >= 1
    ensures |trace| < |h.trace| <= |trace| + HopRetries
  {
    var f := FetchWithRetry(host, trace, cid, HopRetries);
    if f.result.None? then Broken(f.trace)
    else match host.parse(f.result.value)
      case None => Broken(f.trace)
      case Some(doc) =>
        match Get(doc, path)
        case Found(target) => Link(target, f.trace)
        case Missing => Broken(f.trace)
        case Trap => Trapped(f.trace)
  }

  /**
    The resolver. The hex string is decoded with `Bytes.fromHexString`; a
    string that does not decode aborts, and so does one that decodes to
    fewer than 32 bytes, on whose end `bytes32ToCID`'s bounds-checked
    indexing would abort.
  */
  function ExtractCountyFromPropertyHash(host: Host, trace: Trace, propertyHashHex: string): (r: Outcome<Option<string>>)
    ensures |trace| <= |r.trace| <= |trace| + 3 * HopRetries
    ensures r.Done? && r.value.Some? ==> |r.trace| >= |trace| + 3
  {
    match Text.ParseHex(propertyHashHex)
    case None => Aborted(trace)
    case Some(hash) =>
      if |hash| < 32 then Aborted(trace)
      else
        match Follow(host, trace, Cid.CidOf(hash), SeedPath)
        case Broken(t1) => Done(None, t1)
        case Trapped(t1) => Aborted(t1)
        case Link(seed, t1) =>
          match Follow(host, t1, seed, ToPath)
          case Broken(t2) => Done(None, t2)
          case Trapped(t2) => Aborted(t2)
          case Link(to, t2) =>
            match Follow(host, t2, to, CountyPath)
            case Broken(t3) => Done(None, t3)
            case Trapped(t3) => Aborted(t3)
            case Link(county, t3) => Done(Some(county), t3)
  }

  /**
    A hop calls `ipfs.cat` one to three times, only on its own identifier,
    and links exactly when a fetch answered, the answer parsed, and the
    field is a string.
  */
  lemma FollowContract(host: Host, trace: Trace, cid: string, path: seq<string>, target: string)
    requires |path| >= 1
    ensures var h := Follow(host, trace, cid, path);
      && |trace| < |h.trace| <= |trace| + 3
      && h.trace == trace + Calls(cid, |h.trace| - |trace|)
    ensures var f := FetchWithRetry(host, trace, cid, HopRetries);
      Follow(host, trace, cid, path) == Link(target, f.trace) <==>
        f.result.Some? && host.parse(f.result.value).Some?
        && Get(host.parse(f.result.value).value, path) == Found(target)
  {
    RetryContract(host, trace, cid, HopRetries);
  }

  /** The first hop of a walk: from the identifier of the property hash to its seed. */
  function FirstHop(host: Host, trace: Trace, hash: Bytes): Hop
    requires |hash| >= 32
  {
    Follow(host, trace, Cid.CidOf(hash), SeedPath)
  }

  /**
    For the rendering of a 32-byte hash: the county is resolved exactly
    when all three hops link, and it is then the string the last hop read.
    When a hop breaks, the result is null and the trace ends with that hop:
    no later hop fetches anything.
  */
  lemma ResolverContract(host: Host, trace: Trace, hash: Bytes)
    requires |hash| == 32
    ensures var r := ExtractCountyFromPropertyHash(host, trace, Text.Hex(hash));
      var h1 := FirstHop(host, trace, hash);
      && (h1.Broken? ==> r == Done(None, h1.trace))
      && (h1.Trapped? ==> r == Aborted(h1.trace))
      && (h1.Link? ==>
            var h2 := Follow(host, h1.trace, h1.target, ToPath);
            && (h2.Broken? ==> r == Done(None, h2.trace))
            && (h2.Trapped? ==> r == Aborted(h2.trace))
            && (h2.Link? ==>
                  var h3 := Follow(host, h2.trace, h2.target, CountyPath);
                  && (h3.Broken? ==> r == Done(None, h3.trace))
                  && (h3.Trapped? ==> r == Aborted(h3.trace))
                  && (h3.Link? ==> r == Done(Some(h3.target), h3.trace))))
  {
    Text.HexRoundTrip(hash);
  }

  /**
    Resolution succeeds with `county` exactly when every hop links, and
    `county` is the last hop's field.
  */
  lemma ResolvedIff(host: Host, trace: Trace, hash: Bytes, county: string)
    requires |hash| == 32
    ensures var r := ExtractCountyFromPropertyHash(host, trace, Text.Hex(hash));
      var h1 := FirstHop(host, trace, hash);
      (r.Done? && r.value == Some(county)) <==>
        (h1.Link? && Follow(host, h1.trace, h1.target, ToPath).Link?
         && Follow(host, Follow(host, h1.trace, h1.target, ToPath).trace,
                   Follow(host, h1.trace, h1.target, ToPath).target, CountyPath) == Link(county, r.trace))
  {
    ResolverContract(host, trace, hash);
  }

  /**
    Fail-fast on the first hop: when the property document cannot be
    fetched, parsed or read, every call made was on the property
    identifier, at most three of them.
  */
  lemma FirstHopFailFast(host: Host, trace: Trace, hash: Bytes)
    requires |hash| == 32
    requires !FirstHop(host, trace, hash).Link?
    ensures var r := ExtractCountyFromPropertyHash(host, trace, Text.Hex(hash));
      && (r.Done? ==> r.value == None)
      && |trace| < |r.trace| <= |trace| + 3
      && r.trace == trace + Calls(Cid.CidOf(hash), |r.trace| - |trace|)
  {
    ResolverContract(host, trace, hash);
    FollowContract(host, trace, Cid.CidOf(hash), SeedPath, "");
  }

  /** A document that holds all three links: a seed `seed`, a next document `next` and the county. */
  function LinkedDocument(county: string): Json {
    JObject(map[
      "relationships" := Nest(["property_seed", "/"], JString("seed")),
      "to" := Nest(["/"], JString("next")),
      "county_jurisdiction" := JString(county)])
  }

  /** A host whose every fetch answers at once, with bytes that parse to `LinkedDocument(county)`. */
  function LinkedHost(county: string): Host {
    Host((k: nat, c: string) => Some([]), (b: Bytes) => Some(LinkedDocument(county)), (b: Bytes) => "")
  }

  /**
    The three links of `ResolvedIff` can all be met: against `LinkedHost`,
    the resolver reads the county after one call per hop.
  */
  lemma CountyResolvable(trace: Trace, hash: Bytes, county: string)
    requires |hash| == 32
    ensures ExtractCountyFromPropertyHash(LinkedHost(county), trace, Text.Hex(hash))
      == Done(Some(county), trace + [Cid.CidOf(hash), "seed", "next"])
  {
    var host := LinkedHost(county);
    var doc := LinkedDocument(county);
    Text.HexRoundTrip(hash);
    GetNest(["property_seed", "/"], "seed");
    GetNest(["/"], "next");
    assert Get(doc, SeedPath) == Found("seed");
    assert Get(doc, ToPath) == Found("next");
    var t1 := trace + [Cid.CidOf(hash)];
    assert Follow(host, trace, Cid.CidOf(hash), SeedPath) == Link("seed", t1);
    assert Follow(host, t1, "seed", ToPath) == Link("next", t1 + ["seed"]);
    assert Follow(host, t1 + ["seed"], "next", CountyPath) == Link(county, t1 + ["seed"] + ["next"]);
  }
}
