/**
 * The per-client fixed-window rate limiter of src/utils/rate-limiter.ts.
 *
 * The process-wide `rateLimits` map becomes an explicit state value that is
 * threaded through `IsRateLimited`; `Date.now()` becomes the parameter `now`
 * and the `Math.random() < 0.01` coin-flip becomes the parameter `sweep`.
 */
module RateLimiter {

  /** Requests a client may make in one window before it is reported as limited. */
  const MaxRequests: int := 10

  /** Length of a window in milliseconds (five minutes). */
  const WindowMs: int := 5 * 60 * 1000

  /** Number of requests seen in the current window and the instant the window ends. */
  datatype RateLimitInfo = RateLimitInfo(count: int, resetTime: int)

  /** The tracked windows, by client identifier. */
  type Limits = map<string, RateLimitInfo>

  /** What one call reports, together with the table it leaves behind. */
  datatype Step = Step(limited: bool, limits: Limits)

  /** The window has passed; the comparison is strict, so `now == resetTime` is still live. */
  predicate Expired(info: RateLimitInfo, now: int)
  {
    now > info.resetTime
  }

  /** The window opened by a client's first request, or by its first request after expiry. */
  function FreshWindow(now: int): RateLimitInfo
  {
    RateLimitInfo(1, now + WindowMs)
  }

  /** Every stored window has seen at least one request. */
  predicate WellFormed(limits: Limits)
  {
    forall k :: k in limits ==> limits[k].count >= 1
  }

  /** The opportunistic clean-up: drops exactly the entries whose window has passed. */
  function Sweep(limits: Limits, now: int): (r: Limits)
    ensures forall k :: k in r <==> k in limits && !Expired(limits[k], now)
    ensures forall k :: k in r ==> r[k] == limits[k]
  {
    map k | k in limits && !Expired(limits[k], now) :: limits[k]
  }

  /**
   * One call of `isRateLimited(ip)` at time `now`; `sweep` says whether the
   * random clean-up ran first. The contract describes the queried client's
   * outcome without reference to the sweep: a missing or expired window is
   * restarted and the call is allowed; a live window counts the call and
   * reports whether the count now exceeds `MaxRequests`.
   */
  function IsRateLimited(limits: Limits, ip: string, now: int, sweep: bool): (r: Step)
    ensures ip in r.limits
    ensures ip in limits && !Expired(limits[ip], now) ==>
              r.limits[ip] == RateLimitInfo(limits[ip].count + 1, limits[ip].resetTime)
    ensures ip !in limits || Expired(limits[ip], now) ==> r.limits[ip] == FreshWindow(now)
    ensures r.limited <==> ip in limits && !Expired(limits[ip], now) && limits[ip].count >= MaxRequests
    ensures !Expired(r.limits[ip], now)
    // every other client keeps its window, unless the sweep removed an expired one
    ensures forall k :: k in r.limits && k != ip ==> k in limits && r.limits[k] == limits[k]
    ensures forall k :: k in limits && k != ip ==> (k in r.limits <==> !(sweep && Expired(limits[k], now)))
    ensures WellFormed(limits) ==> WellFormed(r.limits)
  {
    var table := if sweep then Sweep(limits, now) else limits;
    if ip !in table then
      Step(false, table[ip := FreshWindow(now)])
    else if Expired(table[ip], now) then
      Step(false, table[ip := FreshWindow(now)])
    else
      var info := RateLimitInfo(table[ip].count + 1, table[ip].resetTime);
      Step(info.count > MaxRequests, table[ip := info])
  }

  /**
   * Whether the sweep ran changes nothing the caller can see: the answer and
   * the queried client's window are the same, and sweeping before the call
   * leaves the same table as sweeping after it.
   */
  lemma SweepIsInvisible(limits: Limits, ip: string, now: int)
    ensures IsRateLimited(limits, ip, now, true).limited == IsRateLimited(limits, ip, now, false).limited
    ensures IsRateLimited(limits, ip, now, true).limits[ip] == IsRateLimited(limits, ip, now, false).limits[ip]
    ensures IsRateLimited(limits, ip, now, true).limits == Sweep(IsRateLimited(limits, ip, now, false).limits, now)
  {
  }

  /** The outcome of a series of calls from one client. */
  datatype Trace = Trace(answers: seq<bool>, limits: Limits)

  /** Calls `isRateLimited(ip)` at each of `times`, with the matching sweep coin-flips. */
  function Run(limits: Limits, ip: string, times: seq<int>, sweeps: seq<bool>): (r: Trace)
    requires |sweeps| == |times|
    ensures |r.answers| == |times|
    decreases |times|
  {
    if |times| == 0 then Trace([], limits)
    else
      var step := IsRateLimited(limits, ip, times[0], sweeps[0]);
      var rest := Run(step.limits, ip, times[1..], sweeps[1..]);
      Trace([step.limited] + rest.answers, rest.limits)
  }

  /** Within a live window of `count` calls, every further call is counted, with no cap. */
  lemma {:induction false} LiveWindowRun(limits: Limits, ip: string, times: seq<int>, sweeps: seq<bool>)
    requires |sweeps| == |times|
    requires ip in limits
    requires forall i :: 0 <= i < |times| ==> times[i] <= limits[ip].resetTime
    ensures ip in Run(limits, ip, times, sweeps).limits
    ensures Run(limits, ip, times, sweeps).limits[ip]
              == RateLimitInfo(limits[ip].count + |times|, limits[ip].resetTime)
    ensures forall i :: 0 <= i < |times| ==>
              Run(limits, ip, times, sweeps).answers[i] == (limits[ip].count + i + 1 > MaxRequests)
    decreases |times|
  {
    if |times| > 0 {
      var step := IsRateLimited(limits, ip, times[0], sweeps[0]);
      assert step.limits[ip] == RateLimitInfo(limits[ip].count + 1, limits[ip].resetTime);
      forall i | 0 <= i < |times[1..]|
        ensures times[1..][i] <= step.limits[ip].resetTime
      {
        assert times[1..][i] == times[i + 1];
      }
      LiveWindowRun(step.limits, ip, times[1..], sweeps[1..]);
      var r := Run(limits, ip, times, sweeps);
      forall i | 0 <= i < |times|
        ensures r.answers[i] == (limits[ip].count + i + 1 > MaxRequests)
      {
        if i > 0 {
          assert r.answers[i] == Run(step.limits, ip, times[1..], sweeps[1..]).answers[i - 1];
        }
      }
    }
  }

  /**
   * A burst from a client with no live window, all inside the window its first
   * call opens: calls 1 to 10 are allowed, every later call is limited, and
   * the stored count equals the number of calls.
   */
  lemma {:induction false} WindowBurst(limits: Limits, ip: string, times: seq<int>, sweeps: seq<bool>)
    requires |sweeps| == |times| && |times| >= 1
    requires ip !in limits || Expired(limits[ip], times[0])
    requires forall i :: 0 <= i < |times| ==> times[i] <= times[0] + WindowMs
    ensures ip in Run(limits, ip, times, sweeps).limits
    ensures Run(limits, ip, times, sweeps).limits[ip] == RateLimitInfo(|times|, times[0] + WindowMs)
    ensures forall i :: 0 <= i < |times| ==> (Run(limits, ip, times, sweeps).answers[i] <==> i >= MaxRequests)
  {
    var step := IsRateLimited(limits, ip, times[0], sweeps[0]);
    assert step.limits[ip] == FreshWindow(times[0]);
    forall i | 0 <= i < |times[1..]|
      ensures times[1..][i] <= step.limits[ip].resetTime
    {
      assert times[1..][i] == times[i + 1];
    }
    LiveWindowRun(step.limits, ip, times[1..], sweeps[1..]);
    var r := Run(limits, ip, times, sweeps);
    forall i | 0 <= i < |times|
      ensures r.answers[i] <==> i >= MaxRequests
    {
      if i > 0 {
        assert r.answers[i] == Run(step.limits, ip, times[1..], sweeps[1..]).answers[i - 1];
      }
    }
  }

  /**
   * The window's last instant still counts: a second call exactly `WindowMs`
   * after the first is counted in the same window, one millisecond later the
   * window restarts.
   */
  lemma WindowBoundary(limits: Limits, ip: string, start: int, sweep1: bool, sweep2: bool)
    requires ip !in limits || Expired(limits[ip], start)
    ensures var first := IsRateLimited(limits, ip, start, sweep1).limits;
            IsRateLimited(first, ip, start + WindowMs, sweep2).limits[ip] == RateLimitInfo(2, start + WindowMs)
    ensures var first := IsRateLimited(limits, ip, start, sweep1).limits;
            IsRateLimited(first, ip, start + WindowMs + 1, sweep2).limits[ip] == FreshWindow(start + WindowMs + 1)
  {
  }
}
