/**
 * The retry loop of `extractMetadata` (src/controllers/extractor.controller.ts):
 * attempts run until one yields metadata or the bound is used up, with a pause of
 * one second between a failed attempt and the next.
 */
module Retry {
  import opened Options
  import opened Text
  import opened Metadata
  import opened Controller

  const ExhaustedError := "N\U{FA}mero m\U{E1}ximo de tentativas excedido."
  /** Returned only when the loop body never runs. */
  const FallbackError := "Fun\U{E7}\U{E3}o extractMetadata n\U{E3}o retornou resultado ou erro."

  /** `{ metadata?, error? }`. */
  datatype Reply = Reply(metadata: Option<MetadataResult>, error: Option<string>)

  /** What the `k`-th attempt yields; an attempt past the end of the list throws. */
  function OutcomeAt(outcomes: seq<Option<MetadataResult>>, k: nat): Option<MetadataResult> {
    if k < |outcomes| then outcomes[k] else None
  }

  /** The first attempt in `[from, limit)` that yields metadata. */
  function FirstSuccess(outcomes: seq<Option<MetadataResult>>, from: nat, limit: nat): (r: Option<nat>)
    ensures r.Some? ==> from <= r.value < limit && OutcomeAt(outcomes, r.value).Some?
    ensures r.Some? ==> forall k :: from <= k < r.value ==> OutcomeAt(outcomes, k).None?
    ensures r.None? ==> forall k :: from <= k < limit ==> OutcomeAt(outcomes, k).None?
    decreases limit - from
  {
    if from >= limit then None
    else if OutcomeAt(outcomes, from).Some? then Some(from)
    else FirstSuccess(outcomes, from + 1, limit)
  }

  /** The first success is determined by where it is and that none precedes it. */
  lemma {:induction false} FirstSuccessAt(outcomes: seq<Option<MetadataResult>>, from: nat, k: nat, limit: nat)
    requires from <= k < limit && OutcomeAt(outcomes, k).Some?
    requires forall j :: from <= j < k ==> OutcomeAt(outcomes, j).None?
    ensures FirstSuccess(outcomes, from, limit) == Some(k)
    decreases k - from
  {
    if from < k {
      FirstSuccessAt(outcomes, from + 1, k, limit);
    }
  }

  /**
   * The loop of `extractMetadata`, given what each attempt yields in order. Besides
   * the reply it reports how many attempts ran and how many one-second pauses
   * came between them.
   */
  method RetryLoop(outcomes: seq<Option<MetadataResult>>, maxRetries: int)
    returns (reply: Reply, attempts: nat, pauses: nat)
    ensures reply.metadata.Some? != reply.error.Some?
    ensures maxRetries <= 0 ==> attempts == 0 && pauses == 0 && reply == Reply(None, Some(FallbackError))
    ensures maxRetries > 0 && FirstSuccess(outcomes, 0, maxRetries).Some? ==>
      var k := FirstSuccess(outcomes, 0, maxRetries).value;
      attempts == k + 1 && pauses == k && reply == Reply(OutcomeAt(outcomes, k), None)
    ensures maxRetries > 0 && FirstSuccess(outcomes, 0, maxRetries).None? ==>
      attempts == maxRetries && pauses == maxRetries - 1 && reply == Reply(None, Some(ExhaustedError))
    // with at least one allowed attempt the fallback error is never the answer
    ensures maxRetries > 0 ==> reply.error != Some(FallbackError)
  {
    var retries: nat := 0;
    attempts, pauses := 0, 0;
    while retries < maxRetries
      invariant attempts == retries && pauses == retries
      invariant maxRetries > 0 ==> retries < maxRetries
      invariant maxRetries <= 0 ==> retries == 0
      invariant forall k :: 0 <= k < retries ==> OutcomeAt(outcomes, k).None?
      decreases maxRetries - retries
    {
      var outcome := OutcomeAt(outcomes, retries);
      attempts := attempts + 1;
      if outcome.Some? {
        FirstSuccessAt(outcomes, 0, retries, maxRetries);
        return Reply(outcome, None), attempts, pauses;
      }
      retries := retries + 1;
      if retries < maxRetries {
        pauses := pauses + 1;
      } else {
        return Reply(None, Some(ExhaustedError)), attempts, pauses;
      }
    }
    reply := Reply(None, Some(FallbackError));
  }

  /** What each attempt of a script yields. */
  function Outcomes(req: Request, script: seq<Attempt>): (outcomes: seq<Option<MetadataResult>>)
    ensures |outcomes| == |script|
    ensures forall k :: 0 <= k < |script| ==> outcomes[k] == TryOnce(req, script[k])
    // an attempt whose request throws, or whose body is a server-error page, fails
    ensures forall k :: 0 <= k < |script| && script[k].Raised? ==> outcomes[k].None?
    ensures forall k :: 0 <= k < |script| && script[k].Fetched? && Contains(script[k].body, ErrorMarker) ==>
      outcomes[k].None?
  {
    seq(|script|, k requires 0 <= k < |script| => TryOnce(req, script[k]))
  }

  /** `extractMetadata(url, amazon, magazine, maxRetries)` over a script of attempts:
      the loop over what each of them yields. */
  method ExtractMetadata(req: Request, maxRetries: int, script: seq<Attempt>)
    returns (reply: Reply, attempts: nat, pauses: nat)
    ensures reply.metadata.Some? != reply.error.Some?
    ensures maxRetries <= 0 ==> attempts == 0 && pauses == 0 && reply == Reply(None, Some(FallbackError))
    ensures maxRetries > 0 && FirstSuccess(Outcomes(req, script), 0, maxRetries).Some? ==>
      var k := FirstSuccess(Outcomes(req, script), 0, maxRetries).value;
      attempts == k + 1 && pauses == k && reply == Reply(OutcomeAt(Outcomes(req, script), k), None)
    ensures maxRetries > 0 && FirstSuccess(Outcomes(req, script), 0, maxRetries).None? ==>
      attempts == maxRetries && pauses == maxRetries - 1 && reply == Reply(None, Some(ExhaustedError))
    // with at least one allowed attempt the fallback error is never the answer
    ensures maxRetries > 0 ==> reply.error != Some(FallbackError)
  {
    reply, attempts, pauses := RetryLoop(Outcomes(req, script), maxRetries);
  }

  /** The bound the route uses: it calls `extractMetadata` with three arguments. */
  const DefaultMaxRetries := 5

  /** `extractMetadata(url, amazon, magazine)`, as the route calls it: at most five
      attempts with at most four pauses between them. */
  method ExtractMetadataDefault(req: Request, script: seq<Attempt>)
    returns (reply: Reply, attempts: nat, pauses: nat)
    ensures reply.metadata.Some? != reply.error.Some?
    ensures 1 <= attempts <= DefaultMaxRetries && pauses == attempts - 1
    ensures reply.error != Some(FallbackError)
    ensures FirstSuccess(Outcomes(req, script), 0, DefaultMaxRetries).Some? ==>
      var k := FirstSuccess(Outcomes(req, script), 0, DefaultMaxRetries).value;
      attempts == k + 1 && reply == Reply(OutcomeAt(Outcomes(req, script), k), None)
    ensures FirstSuccess(Outcomes(req, script), 0, DefaultMaxRetries).None? ==>
      attempts == DefaultMaxRetries && reply == Reply(None, Some(ExhaustedError))
  {
    reply, attempts, pauses := ExtractMetadata(req, DefaultMaxRetries, script);
  }
}
