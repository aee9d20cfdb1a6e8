/**
 * The `Tracker` object: its rate-limit map, updated in place by each
 * admission check and by the housekeeping sweep, the response it chooses
 * for each request, and its running flag.
 *
 * The clock is read by the caller and passed in as `now`. Stopping the
 * I/O context and joining the worker thread are not modelled; the ghost
 * counter `teardowns` records how often `Stop` goes on to do them.
 */
module Tracker {
  import opened RateLimit
  import opened HttpResponse

  class Tracker {
    /** Per-source admission state (`rate_limit_map`). */
    var rateLimitMap: Table
    /** Whether the service has been started and not stopped since (`_running`). */
    var running: bool
    /** How many times `Stop` stopped the I/O context and joined the worker thread. */
    ghost var teardowns: nat
    /** How many times `Start` launched a worker thread. */
    ghost var launches: nat

    /** A new tracker: empty table, not running. */
    constructor ()
      ensures rateLimitMap == map[] && !running
      ensures teardowns == 0 && launches == 0
    {
      rateLimitMap := map[];
      running := false;
      teardowns := 0;
      launches := 0;
    }

    /** Marks the tracker running and launches the worker thread, unconditionally. */
    method Start()
      modifies this
      ensures running
      ensures launches == old(launches) + 1
      ensures rateLimitMap == old(rateLimitMap) && teardowns == old(teardowns)
    {
      running := true;
      launches := launches + 1;
    }

    /**
     * Does nothing when not running; otherwise clears the flag and then
     * tears down the I/O context and the worker thread.
     */
    method Stop()
      modifies this
      ensures !running
      ensures teardowns == if old(running) then old(teardowns) + 1 else old(teardowns)
      ensures rateLimitMap == old(rateLimitMap) && launches == old(launches)
    {
      if !running {
        return;
      }
      running := false;
      teardowns := teardowns + 1;
    }

    /**
     * Looks up (creating when absent) the entry for `ip`, restarts its
     * window when the window has elapsed at `now`, counts the request and
     * admits it when the count is within the threshold.
     */
    method CheckRateLimit(ip: string, now: nat) returns (admitted: bool)
      modifies this
      ensures (rateLimitMap, admitted) == Check(old(rateLimitMap), ip, now)
      ensures running == old(running)
      ensures teardowns == old(teardowns) && launches == old(launches)
    {
      var info := if ip in rateLimitMap then rateLimitMap[ip] else FRESH_ENTRY;
      if Expired(info, now) {
        info := info.(count := 0, lastRequest := now);
      }
      info := info.(count := info.count + 1);
      rateLimitMap := rateLimitMap[ip := info];
      admitted := info.count <= RATE_LIMIT_THRESHOLD;
    }

    /** Erases, one entry at a time, every entry whose window has elapsed at `now`. */
    method CleanupRateLimits(now: nat)
      modifies this
      ensures rateLimitMap == Sweep(old(rateLimitMap), now)
      ensures running == old(running)
      ensures teardowns == old(teardowns) && launches == old(launches)
    {
      ghost var before := rateLimitMap;
      var pending := rateLimitMap.Keys;
      while pending != {}
        invariant pending <= before.Keys
        invariant rateLimitMap.Keys <= before.Keys
        invariant forall ip :: ip in rateLimitMap ==> rateLimitMap[ip] == before[ip]
        invariant forall ip :: ip in before ==>
                    (ip in rateLimitMap <==> ip in pending || !Expired(before[ip], now))
        invariant running == old(running)
        invariant teardowns == old(teardowns) && launches == old(launches)
        decreases pending
      {
        var ip :| ip in pending;
        if Expired(rateLimitMap[ip], now) {
          rateLimitMap := rateLimitMap - {ip};
        }
        pending := pending - {ip};
      }
      assert rateLimitMap.Keys == Sweep(before, now).Keys;
    }

    /**
     * Handles one parsed request from source address `ip` at `now`: the
     * admission check, then the response chosen by its verdict.
     */
    method HandleHttpRequest(ip: string, req: Request, now: nat) returns (res: Response)
      modifies this
      ensures rateLimitMap == Check(old(rateLimitMap), ip, now).0
      ensures res == Respond(Check(old(rateLimitMap), ip, now).1, req)
      ensures running == old(running)
      ensures teardowns == old(teardowns) && launches == old(launches)
    {
      var admitted := CheckRateLimit(ip, now);
      res := Respond(admitted, req);
    }
  }

  /** What a caller can conclude from the lifecycle contracts alone. */
  method LifecycleScenario()
  {
    var t := new Tracker();
    t.Stop();
    assert !t.running && t.teardowns == 0;
    t.Start();
    assert t.running;
    t.Stop();
    assert !t.running && t.teardowns == 1;
    t.Stop();
    assert !t.running && t.teardowns == 1;
  }

  /** The first request from a new source at a fresh tracker is admitted with a 200. */
  method FirstRequestScenario(req: Request, now: nat)
  {
    var t := new Tracker();
    var res := t.HandleHttpRequest("10.0.0.1", req, now);
    assert res.status == Ok && res.retryAfter == None;
    assert t.rateLimitMap["10.0.0.1"].count == 1;
  }
}
