/**
  The host the mapping runs against, and `fetchFromIPFSWithRetry`.

  The host calls `ipfs.cat`, `json.try_fromBytes` and `Bytes.toString` are
  oracles. `ipfs.cat` may answer differently each time it is called, so its
  oracle is indexed by the position of the call in the run: the k-th call
  of a run (counting from 0) on `cid` answers `cat(k, cid)`. A run keeps a
  trace of the identifiers it asked for, in order; its length is the index
  of the next call.
*/
module Ipfs {
  import opened Wrappers
  import opened Binary
  import opened Json

  /** The identifiers passed to `ipfs.cat`, in call order. */
  type Trace = seq<string>

  datatype Host = Host(
    cat: (nat, string) -> Option<Bytes>,
    parse: Bytes -> Option<Json>,
    text: Bytes -> string)

  /** A computation that either finishes with a value or aborts the handler; both report the calls made. */
  datatype Outcome<T> = Done(value: T, trace: Trace) | Aborted(trace: Trace)

  datatype Fetched = Fetched(result: Option<Bytes>, trace: Trace)

  /** `n` calls on `cid`. */
  function Calls(cid: string, n: nat): (t: Trace)
    ensures |t| == n && forall k :: 0 <= k < n ==> t[k] == cid
  {
    seq(n, _ => cid)
  }

  /** How many attempts the loop `for (attempt = 1; attempt <= maxRetries; attempt++)` allows. */
  function AttemptBound(maxRetries: int): nat {
    if maxRetries > 0 then maxRetries else 0
  }

  /** Up to `left` further attempts on `cid`, stopping at the first answer. */
  function Attempts(host: Host, trace: Trace, cid: string, left: nat): (f: Fetched)
    ensures |trace| <= |f.trace| <= |trace| + left
    ensures left > 0 ==> |trace| < |f.trace|
    decreases left
  {
    if left == 0 then Fetched(None, trace)
    else
      var answer := host.cat(|trace|, cid);
      if answer.Some? then Fetched(answer, trace + [cid])
      else Attempts(host, trace + [cid], cid, left - 1)
  }

  /** The reference for `fetchFromIPFSWithRetry`. */
  function FetchWithRetry(host: Host, trace: Trace, cid: string, maxRetries: int): (f: Fetched)
    ensures maxRetries > 0 ==> |trace| < |f.trace| <= |trace| + maxRetries
    ensures maxRetries <= 0 ==> f == Fetched(None, trace)
  {
    Attempts(host, trace, cid, AttemptBound(maxRetries))
  }

  /** What every run of the attempts does, for any number `left` of attempts allowed. */
  lemma {:induction false} AttemptsContract(host: Host, trace: Trace, cid: string, left: nat)
    ensures var f := Attempts(host, trace, cid, left);
      && |trace| <= |f.trace| <= |trace| + left
      && f.trace == trace + Calls(cid, |f.trace| - |trace|)
      && (f.result.Some? ==> |f.trace| > |trace| && f.result == host.cat(|f.trace| - 1, cid))
      && (forall j :: |trace| <= j < |f.trace| - 1 ==> host.cat(j, cid).None?)
      && (f.result.None? <==>
            |f.trace| == |trace| + left && forall j :: |trace| <= j < |f.trace| ==> host.cat(j, cid).None?)
    decreases left
  {
    var f := Attempts(host, trace, cid, left);
    if left > 0 && host.cat(|trace|, cid).None? {
      var t := trace + [cid];
      AttemptsContract(host, t, cid, left - 1);
      assert f == Attempts(host, t, cid, left - 1);
      assert f.trace == trace + Calls(cid, |f.trace| - |trace|) by {
        assert f.trace == t + Calls(cid, |f.trace| - |t|);
      }
    }
  }

  /**
    The retry contract: at most `maxRetries` calls, all on `cid`; a result
    is the answer of the last call and every earlier call failed; the
    result is null exactly when all `maxRetries` calls failed.
  */
  lemma RetryContract(host: Host, trace: Trace, cid: string, maxRetries: int)
    ensures var f := FetchWithRetry(host, trace, cid, maxRetries);
      && |trace| <= |f.trace| <= |trace| + AttemptBound(maxRetries)
      && f.trace == trace + Calls(cid, |f.trace| - |trace|)
      && (f.result.Some? ==> |f.trace| > |trace| && f.result == host.cat(|f.trace| - 1, cid))
      && (forall j :: |trace| <= j < |f.trace| - 1 ==> host.cat(j, cid).None?)
      && (f.result.None? <==>
            |f.trace| == |trace| + AttemptBound(maxRetries)
            && forall j :: |trace| <= j < |f.trace| ==> host.cat(j, cid).None?)
  {
    AttemptsContract(host, trace, cid, AttemptBound(maxRetries));
  }

  /** The source loop: attempts numbered from 1 to `maxRetries`, returning on the first answer. */
  method FetchFromIpfsWithRetry(host: Host, trace: Trace, cid: string, maxRetries: int)
    returns (result: Option<Bytes>, calls: Trace)
    ensures Fetched(result, calls) == FetchWithRetry(host, trace, cid, maxRetries)
  {
    calls := trace;
    var attempt := 1;
    while attempt <= maxRetries
      invariant 1 <= attempt && attempt - 1 <= AttemptBound(maxRetries)
      invariant Attempts(host, calls, cid, AttemptBound(maxRetries) - (attempt - 1))
             == FetchWithRetry(host, trace, cid, maxRetries)
      decreases maxRetries - attempt
    {
      var answer := host.cat(|calls|, cid);
      calls := calls + [cid];
      if answer.Some? {
        return answer, calls;
      }
      attempt := attempt + 1;
    }
    result := None;
  }
}
