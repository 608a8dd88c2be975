/** handle_rate_limit: what it waits and what it answers, with the sleeping left out. */
module RateLimit {

  const DefaultRetries := 5
  const DefaultInitialDelay := 60
  /** The HTTP status of a rate-limited request. */
  const RateLimitStatus := 429

  /** The delays handed to the sleep call, and the answer returned to the caller. */
  datatype Backoff = Backoff(waits: seq<int>, resumed: bool)

  function Pow2(i: nat): (p: nat)
    ensures p >= 1
  {
    if i == 0 then 1 else 2 * Pow2(i - 1)
  }

  /**
   * The schedule the comment inside the loop announces: initial_delay * 2^i for every i in
   * range(retries), that is 60, 120, 240, 480, 960 with the defaults.
   */
  function AnnouncedDelays(retries: int, initialDelay: int): (d: seq<int>)
    ensures |d| == if retries > 0 then retries else 0
    ensures forall i :: 0 <= i < |d| ==> d[i] == initialDelay * Pow2(i)
    decreases retries
  {
    if retries <= 0 then [] else AnnouncedDelays(retries - 1, initialDelay) + [initialDelay * Pow2(retries - 1)]
  }

  /**
   * What a call of handle_rate_limit amounts to: the loop over range(retries) returns from
   * inside its first iteration, so a non-empty range waits once, for initial_delay, and
   * answers "resume"; an empty range answers "give up" without waiting.
   */
  function RateLimitAnswer(retries: int, initialDelay: int): Backoff
  {
    if retries >= 1 then Backoff([initialDelay], true) else Backoff([], false)
  }

  /** handle_rate_limit as written: the loop, whose body returns, and the return after it. */
  method HandleRateLimit(retries: int, initialDelay: int) returns (b: Backoff)
    ensures b == RateLimitAnswer(retries, initialDelay)
    ensures |b.waits| <= 1 && b.waits == AnnouncedDelays(retries, initialDelay)[..|b.waits|]
  {
    var waits: seq<int> := [];
    if retries > 0 {
      for i := 0 to retries
        invariant i == 0 && waits == []
      {
        var delay := initialDelay * Pow2(i);
        waits := waits + [delay];
        return Backoff(waits, true);
      }
    }
    return Backoff(waits, false);
  }

  /**
   * However many retries are allowed, a call waits only the first delay of the announced
   * schedule and never the doubled second one: the answer is that of a single retry.
   */
  lemma NoEscalation(retries: int, initialDelay: int)
    requires retries >= 2
    ensures var announced := AnnouncedDelays(retries, initialDelay);
            RateLimitAnswer(retries, initialDelay).waits == announced[..1] &&
            announced[1] == 2 * initialDelay && |RateLimitAnswer(retries, initialDelay).waits| < |announced|
    ensures RateLimitAnswer(retries, initialDelay) == RateLimitAnswer(1, initialDelay)
  {
    var announced := AnnouncedDelays(retries, initialDelay);
    assert announced[0] == initialDelay * Pow2(0) == initialDelay;
    assert announced[1] == initialDelay * Pow2(1);
  }

  /** With the defaults used at both call sites the answer is always "resume". */
  lemma DefaultsAlwaysResume()
    ensures RateLimitAnswer(DefaultRetries, DefaultInitialDelay) == Backoff([60], true)
    ensures AnnouncedDelays(DefaultRetries, DefaultInitialDelay)[..1] == [60]
  {
    assert AnnouncedDelays(DefaultRetries, DefaultInitialDelay)[0] == DefaultInitialDelay * Pow2(0);
  }
}
