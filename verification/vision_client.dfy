/**
  * The vision chat-completion client: one POST per attempt, at most
  * `maxRetries + 1` attempts, and a cost tracker whose running totals and
  * usage history grow by exactly one successful call's usage.
  *
  * The HTTP endpoint is an oracle `post` from the attempt index (the value of
  * the `retries` counter when the request is sent) to what that request
  * produced; the price list of the tracker is an oracle `price` from
  * (input tokens, output tokens) to the call's cost for the wrapper's
  * deployment.
  */
module VisionClient {
  import opened Wrappers

  /** The `usage` object of a completion response. */
  datatype Usage = Usage(promptTokens: nat, completionTokens: nat, totalTokens: nat)

  /** What one POST produced: an HTTP reply, a timeout, or another request error. */
  datatype HttpOutcome =
    | Reply(status: int, text: string, usage: Usage, content: string, elapsed: real)
    | TimedOut(elapsed: real)
    | RequestFailed(message: string, elapsed: real)

  /** Why an attempt failed; the error string of the result renders one of these. */
  datatype Failure =
    | StatusError(status: int, text: string)
    | Timeout(seconds: int)
    | RequestError(message: string)

  /** The dictionary the call returns: the completion or the error. */
  datatype CallResult =
    | Completed(content: string, usage: Usage, responseTime: real, cost: real, retries: nat)
    | Failed(error: Failure, responseTime: real, cost: real, retries: nat)

  /** One entry of the tracker's usage history. */
  datatype UsageRecord = UsageRecord(
    model: string, inputTokens: nat, outputTokens: nat, totalTokens: nat,
    cost: real, retries: nat)

  /** The tracker's running totals and its usage history. */
  datatype Totals = Totals(
    input: nat, output: nat, total: nat, cost: real, history: seq<UsageRecord>)

  predicate Succeeded(o: HttpOutcome) {
    o.Reply? && o.status == 200
  }

  function Elapsed(o: HttpOutcome): real {
    match o
    case Reply(_, _, _, _, t) => t
    case TimedOut(t) => t
    case RequestFailed(_, t) => t
  }

  /** The failure a non-successful outcome reports. */
  function FailureOf(o: HttpOutcome, timeout: int): Failure
    requires !Succeeded(o)
  {
    match o
    case Reply(status, text, _, _, _) => StatusError(status, text)
    case TimedOut(_) => Timeout(timeout)
    case RequestFailed(msg, _) => RequestError(msg)
  }

  /**
    * What the retry loop returns when entered with the counter at `retries`:
    * `None` when the loop condition fails, i.e. the function falls off its
    * end; otherwise the first successful reply, or the failure of the attempt
    * numbered `maxRetries`.
    */
  function Call(post: nat -> HttpOutcome, price: (nat, nat) -> real, timeout: int,
                maxRetries: int, retries: nat): (r: Option<CallResult>)
    ensures r.Some? ==> retries <= r.value.retries <= maxRetries
    ensures r.Some? && r.value.Failed? ==> r.value.retries == maxRetries && r.value.cost == 0.0
    decreases maxRetries + 1 - retries
  {
    if retries > maxRetries then None
    else
      var o := post(retries);
      if Succeeded(o) then
        var cost := price(o.usage.promptTokens, o.usage.completionTokens);
        Some(Completed(o.content, o.usage, o.elapsed, cost, retries))
      else if retries == maxRetries then
        Some(Failed(FailureOf(o, timeout), Elapsed(o), 0.0, retries))
      else
        Call(post, price, timeout, maxRetries, retries + 1)
  }

  /** The tracker after a call: a completed call adds its usage and cost and
      one history record; anything else leaves it as it was. */
  function Charge(t: Totals, model: string, r: Option<CallResult>): Totals {
    if r.Some? && r.value.Completed? then
      var c := r.value;
      Totals(t.input + c.usage.promptTokens, t.output + c.usage.completionTokens,
             t.total + c.usage.totalTokens, t.cost + c.cost,
             t.history + [UsageRecord(model, c.usage.promptTokens, c.usage.completionTokens,
                                      c.usage.totalTokens, c.cost, c.retries)])
    else t
  }

  function SumInput(h: seq<UsageRecord>): nat {
    if h == [] then 0 else SumInput(h[..|h| - 1]) + h[|h| - 1].inputTokens
  }

  function SumOutput(h: seq<UsageRecord>): nat {
    if h == [] then 0 else SumOutput(h[..|h| - 1]) + h[|h| - 1].outputTokens
  }

  function SumTotal(h: seq<UsageRecord>): nat {
    if h == [] then 0 else SumTotal(h[..|h| - 1]) + h[|h| - 1].totalTokens
  }

  function SumCost(h: seq<UsageRecord>): real {
    if h == [] then 0.0 else SumCost(h[..|h| - 1]) + h[|h| - 1].cost
  }

  /** The running totals are the sums over the usage history. */
  predicate Consistent(t: Totals) {
    t.input == SumInput(t.history) && t.output == SumOutput(t.history) &&
    t.total == SumTotal(t.history) && t.cost == SumCost(t.history)
  }

  /** The cost tracker's mutable state. */
  class CostTracker {
    var inputTokens: nat
    var outputTokens: nat
    var totalTokens: nat
    var totalCost: real
    var usageHistory: seq<UsageRecord>

    /** A tracker with no usage recorded. */
    constructor ()
      ensures State() == Totals(0, 0, 0, 0.0, [])
    {
      inputTokens, outputTokens, totalTokens := 0, 0, 0;
      totalCost := 0.0;
      usageHistory := [];
    }

    function State(): Totals
      reads this
    {
      Totals(inputTokens, outputTokens, totalTokens, totalCost, usageHistory)
    }
  }

  class VisionWrapper {
    const deployment: string
    /** Request timeout in seconds. */
    const timeout: int
    const tracker: CostTracker

    constructor (deployment: string, timeout: int, tracker: CostTracker)
      ensures this.deployment == deployment && this.timeout == timeout
      ensures this.tracker == tracker
    {
      this.deployment := deployment;
      this.timeout := timeout;
      this.tracker := tracker;
    }

    /**
      * The retry loop. `posts` counts the requests sent. The result is the
      * one `Call` describes, and the tracker is charged for it and nothing
      * else.
      */
    method VisionChatCompletion(post: nat -> HttpOutcome, price: (nat, nat) -> real,
                                maxRetries: int)
      returns (r: Option<CallResult>, ghost posts: nat)
      modifies tracker
      ensures r == Call(post, price, timeout, maxRetries, 0)
      ensures tracker.State() == Charge(old(tracker.State()), deployment, r)
      ensures posts == if r.Some? then r.value.retries + 1 else 0
    {
      var retries: nat := 0;
      posts := 0;
      while retries <= maxRetries
        invariant Call(post, price, timeout, maxRetries, retries) == Call(post, price, timeout, maxRetries, 0)
        invariant posts == retries
        invariant retries == 0 || retries <= maxRetries
        invariant tracker.State() == old(tracker.State())
        decreases maxRetries - retries
      {
        var o := post(retries);
        posts := posts + 1;
        if o.Reply? && o.status == 200 {
          var u := o.usage;
          var cost := price(u.promptTokens, u.completionTokens);
          tracker.inputTokens := tracker.inputTokens + u.promptTokens;
          tracker.outputTokens := tracker.outputTokens + u.completionTokens;
          tracker.totalTokens := tracker.totalTokens + u.totalTokens;
          tracker.totalCost := tracker.totalCost + cost;
          tracker.usageHistory := tracker.usageHistory +
            [UsageRecord(deployment, u.promptTokens, u.completionTokens, u.totalTokens, cost, retries)];
          r := Some(Completed(o.content, u, o.elapsed, cost, retries));
          return;
        }
        var failure := match o
          case Reply(status, text, _, _, _) => StatusError(status, text)
          case TimedOut(_) => Timeout(timeout)
          case RequestFailed(msg, _) => RequestError(msg);
        if retries == maxRetries {
          r := Some(Failed(failure, Elapsed(o), 0.0, retries));
          return;
        }
        retries := retries + 1;
      }
      r := None;
    }
  }

  // ---------------------------------------------------------------------------
  // Properties of the retry loop
  // ---------------------------------------------------------------------------

  /** The loop returns nothing exactly when it is never entered. */
  lemma {:induction false} CallNoneIff(post: nat -> HttpOutcome, price: (nat, nat) -> real,
                                       timeout: int, maxRetries: int, retries: nat)
    ensures Call(post, price, timeout, maxRetries, retries).None? <==> retries > maxRetries
    decreases maxRetries + 1 - retries
  {
    if retries < maxRetries && !Succeeded(post(retries)) {
      CallNoneIff(post, price, timeout, maxRetries, retries + 1);
    }
  }

  /** A failure is returned only after every attempt failed, the last one
      reporting its own failure and elapsed time. */
  lemma {:induction false} FailedMeansAllFailed(post: nat -> HttpOutcome, price: (nat, nat) -> real,
                                                timeout: int, maxRetries: int, retries: nat)
    requires Call(post, price, timeout, maxRetries, retries).Some?
    requires Call(post, price, timeout, maxRetries, retries).value.Failed?
    ensures forall k :: retries <= k <= maxRetries ==> !Succeeded(post(k))
    ensures var f := Call(post, price, timeout, maxRetries, retries).value;
            f.error == FailureOf(post(maxRetries), timeout) &&
            f.responseTime == Elapsed(post(maxRetries))
    decreases maxRetries + 1 - retries
  {
    if retries < maxRetries {
      FailedMeansAllFailed(post, price, timeout, maxRetries, retries + 1);
    }
  }

  /** A completion is the reply of the first successful attempt, priced by
      its token usage. */
  lemma {:induction false} CompletedAtFirstSuccess(post: nat -> HttpOutcome, price: (nat, nat) -> real,
                                                   timeout: int, maxRetries: int, retries: nat)
    requires Call(post, price, timeout, maxRetries, retries).Some?
    requires Call(post, price, timeout, maxRetries, retries).value.Completed?
    ensures var c := Call(post, price, timeout, maxRetries, retries).value;
            var o := post(c.retries);
            Succeeded(o) && c.content == o.content && c.usage == o.usage &&
            c.responseTime == o.elapsed &&
            c.cost == price(o.usage.promptTokens, o.usage.completionTokens) &&
            forall k :: retries <= k < c.retries ==> !Succeeded(post(k))
    decreases maxRetries + 1 - retries
  {
    if !Succeeded(post(retries)) {
      CompletedAtFirstSuccess(post, price, timeout, maxRetries, retries + 1);
    }
  }

  /** Conversely, a success at attempt `k`, with none before it, is what the
      loop returns. */
  lemma {:induction false} FirstSuccessCompletes(post: nat -> HttpOutcome, price: (nat, nat) -> real,
                                                 timeout: int, maxRetries: int, retries: nat, k: nat)
    requires retries <= k <= maxRetries && Succeeded(post(k))
    requires forall j :: retries <= j < k ==> !Succeeded(post(j))
    ensures Call(post, price, timeout, maxRetries, retries).Some?
    ensures Call(post, price, timeout, maxRetries, retries).value.Completed?
    ensures Call(post, price, timeout, maxRetries, retries).value.retries == k
    decreases k - retries
  {
    if retries < k {
      FirstSuccessCompletes(post, price, timeout, maxRetries, retries + 1, k);
    }
  }

  /** With a non-negative bound the loop always returns a dictionary, and at
      most `maxRetries + 1` requests are sent. */
  lemma AttemptsBounded(post: nat -> HttpOutcome, price: (nat, nat) -> real,
                        timeout: int, maxRetries: int)
    requires maxRetries >= 0
    ensures Call(post, price, timeout, maxRetries, 0).Some?
    ensures Call(post, price, timeout, maxRetries, 0).value.retries + 1 <= maxRetries + 1
  {
    CallNoneIff(post, price, timeout, maxRetries, 0);
  }

  // ---------------------------------------------------------------------------
  // Properties of the tracker
  // ---------------------------------------------------------------------------

  /** Charging keeps the totals equal to the sums over the history. */
  lemma ChargeKeepsConsistent(t: Totals, model: string, r: Option<CallResult>)
    requires Consistent(t)
    ensures Consistent(Charge(t, model, r))
  {
    var t' := Charge(t, model, r);
    if r.Some? && r.value.Completed? {
      assert t'.history[..|t'.history| - 1] == t.history;
    }
  }

  /** A call grows the history by one record exactly when it completed; the
      record carries the attempt index, which is within the bound, and the
      totals grow by that record's figures. */
  lemma ChargeOfCall(post: nat -> HttpOutcome, price: (nat, nat) -> real, timeout: int,
                     maxRetries: int, t: Totals, model: string)
    ensures var r := Call(post, price, timeout, maxRetries, 0);
            var t' := Charge(t, model, r);
            (|t'.history| == |t.history| + 1 <==> r.Some? && r.value.Completed?) &&
            (|t'.history| == |t.history| ==> t' == t) &&
            (|t'.history| == |t.history| + 1 ==>
              var rec := t'.history[|t.history|];
              t'.history[..|t.history|] == t.history &&
              rec.model == model && rec.retries <= maxRetries &&
              t'.input == t.input + rec.inputTokens &&
              t'.output == t.output + rec.outputTokens &&
              t'.total == t.total + rec.totalTokens &&
              t'.cost == t.cost + rec.cost)
  {
  }
}
