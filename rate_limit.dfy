/**
 * The tracker's per-IP fixed-window rate limiter, as values.
 *
 * The table maps a textual source address to its entry. Time is a natural
 * number of ticks of the monotonic (steady) clock, one tick a nanosecond;
 * the clock's epoch is 0.
 */
module RateLimit {

  /** Requests admitted per window (`rate_limit_threshold`). */
  const RATE_LIMIT_THRESHOLD: nat := 100

  /** Clock ticks per second. */
  const TICKS_PER_SECOND: nat := 1_000_000_000

  /** Window length in ticks: 60 seconds (`rate_limit_interval`). */
  const RATE_LIMIT_INTERVAL: nat := 60 * TICKS_PER_SECOND

  /**
   * One source's admission state. `lastRequest` is written only when a
   * window is (re)started, so it is the start of the current window.
   */
  datatype RateLimitInfo = RateLimitInfo(count: nat, lastRequest: nat)

  /** The rate-limit map: one entry per source address (map keys are unique). */
  type Table = map<string, RateLimitInfo>

  /** The entry a value-initialised map slot holds: no requests, window at the epoch. */
  const FRESH_ENTRY: RateLimitInfo := RateLimitInfo(0, 0)

  /** True when the entry's window has elapsed at `now` (strictly longer than the interval). */
  predicate Expired(info: RateLimitInfo, now: nat)
  {
    now - info.lastRequest > RATE_LIMIT_INTERVAL
  }

  /** The entry for `ip`, or the value-initialised one when there is none yet. */
  function Entry(m: Table, ip: string): RateLimitInfo
  {
    if ip in m then m[ip] else FRESH_ENTRY
  }

  /**
   * The update one request makes to its source's entry: restart the window
   * when it has elapsed, then count the request.
   */
  function Touch(info: RateLimitInfo, now: nat): (r: RateLimitInfo)
    ensures Expired(info, now) ==> r.count == 1 && r.lastRequest == now
    ensures !Expired(info, now) ==> r.count == info.count + 1 && r.lastRequest == info.lastRequest
    ensures !Expired(r, now)
  {
    var start := if Expired(info, now) then RateLimitInfo(0, now) else info;
    start.(count := start.count + 1)
  }

  /** An entry whose request count is within the threshold is admitted. */
  predicate Admits(info: RateLimitInfo)
  {
    info.count <= RATE_LIMIT_THRESHOLD
  }

  /**
   * One admission check for `ip` at `now`: the new table and whether the
   * request is admitted. Denied requests are counted too.
   */
  function Check(m: Table, ip: string, now: nat): (r: (Table, bool))
    ensures r.0.Keys == m.Keys + {ip}
    ensures |r.0| == if ip in m then |m| else |m| + 1
    ensures forall other :: other in m && other != ip ==> r.0[other] == m[other]
    ensures Expired(Entry(m, ip), now) ==> r.0[ip] == RateLimitInfo(1, now)
    ensures !Expired(Entry(m, ip), now) ==>
              r.0[ip] == RateLimitInfo(Entry(m, ip).count + 1, Entry(m, ip).lastRequest)
    ensures ip !in m && now > RATE_LIMIT_INTERVAL ==> r.0[ip] == RateLimitInfo(1, now)
    ensures ip !in m && now <= RATE_LIMIT_INTERVAL ==> r.0[ip] == RateLimitInfo(1, 0)
    ensures r.1 <==> r.0[ip].count <= RATE_LIMIT_THRESHOLD
  {
    var info := Touch(Entry(m, ip), now);
    (m[ip := info], Admits(info))
  }

  /** The housekeeping sweep: drop every entry whose window has elapsed at `now`. */
  function Sweep(m: Table, now: nat): (r: Table)
    ensures r.Keys <= m.Keys
    ensures forall ip :: ip in r ==> r[ip] == m[ip] && !Expired(r[ip], now)
    ensures forall ip :: ip in m && !Expired(m[ip], now) ==> ip in r
    ensures forall ip :: ip in m && Expired(m[ip], now) ==> ip !in r
  {
    map ip | ip in m && !Expired(m[ip], now) :: m[ip]
  }

  /** Sweeping twice at the same instant removes nothing the first sweep left. */
  lemma SweepIdempotent(m: Table, now: nat)
    ensures Sweep(Sweep(m, now), now) == Sweep(m, now)
  {
  }

  /** An entry touched at `now` survives a sweep at the same `now`. */
  lemma SweepKeepsJustChecked(m: Table, ip: string, now: nat)
    ensures ip in Sweep(Check(m, ip, now).0, now)
  {
  }

  /**
   * The decisions for a run of requests from `ip` at the given times, one
   * check after another, and the table they leave behind.
   */
  function Replay(m: Table, ip: string, times: seq<nat>): (r: (Table, seq<bool>))
    ensures |r.1| == |times|
    decreases |times|
  {
    if times == [] then (m, [])
    else
      var (m1, admitted) := Check(m, ip, times[0]);
      var (m2, rest) := Replay(m1, ip, times[1..]);
      (m2, [admitted] + rest)
  }

  /**
   * While no request falls after the window, the k-th request (from 0) sees
   * the count grow by one each time and is admitted exactly when the
   * running count is within the threshold; the window start never moves.
   */
  lemma {:induction false} ReplayWithinWindow(m: Table, ip: string, times: seq<nat>)
    requires forall i :: 0 <= i < |times| ==> !Expired(Entry(m, ip), times[i])
    ensures forall k :: 0 <= k < |times| ==>
              Replay(m, ip, times).1[k] == (Entry(m, ip).count + k + 1 <= RATE_LIMIT_THRESHOLD)
    ensures Entry(Replay(m, ip, times).0, ip)
            == RateLimitInfo(Entry(m, ip).count + |times|, Entry(m, ip).lastRequest)
    decreases |times|
  {
    if times != [] {
      var info := Entry(m, ip);
      var m1 := Check(m, ip, times[0]).0;
      assert Entry(m1, ip) == RateLimitInfo(info.count + 1, info.lastRequest);
      var tail := times[1..];
      forall i | 0 <= i < |tail|
        ensures !Expired(Entry(m1, ip), tail[i])
      {
        assert tail[i] == times[i + 1];
      }
      ReplayWithinWindow(m1, ip, tail);
      forall k | 0 <= k < |times|
        ensures Replay(m, ip, times).1[k] == (info.count + k + 1 <= RATE_LIMIT_THRESHOLD)
      {
        if k > 0 {
          assert Replay(m, ip, times).1[k] == Replay(m1, ip, tail).1[k - 1];
        }
      }
    }
  }

  /**
   * A request that finds its window elapsed starts a new one; within that
   * window the first RATE_LIMIT_THRESHOLD requests are admitted and every
   * later one is denied.
   */
  lemma {:induction false} ReplayNewWindow(m: Table, ip: string, times: seq<nat>)
    requires times != [] && Expired(Entry(m, ip), times[0])
    requires forall i :: 0 <= i < |times| ==> times[i] - times[0] <= RATE_LIMIT_INTERVAL
    ensures forall k :: 0 <= k < |times| ==>
              Replay(m, ip, times).1[k] == (k < RATE_LIMIT_THRESHOLD)
    ensures Entry(Replay(m, ip, times).0, ip) == RateLimitInfo(|times|, times[0])
  {
    var m1 := Check(m, ip, times[0]).0;
    assert Entry(m1, ip) == RateLimitInfo(1, times[0]);
    var tail := times[1..];
    forall i | 0 <= i < |tail|
      ensures !Expired(Entry(m1, ip), tail[i])
    {
      assert tail[i] == times[i + 1];
    }
    ReplayWithinWindow(m1, ip, tail);
    forall k | 0 <= k < |times|
      ensures Replay(m, ip, times).1[k] == (k < RATE_LIMIT_THRESHOLD)
    {
      if k > 0 {
        assert Replay(m, ip, times).1[k] == Replay(m1, ip, tail).1[k - 1];
      }
    }
  }

  /**
   * A run of requests from `ip` leaves every other source as it was: present
   * with the same entry, or absent.
   */
  lemma {:induction false} ReplayLeavesOthers(m: Table, ip: string, times: seq<nat>, other: string)
    requires other != ip
    ensures other in Replay(m, ip, times).0 <==> other in m
    ensures Entry(Replay(m, ip, times).0, other) == Entry(m, other)
    decreases |times|
  {
    if times != [] {
      ReplayLeavesOthers(Check(m, ip, times[0]).0, ip, times[1..], other);
    }
  }
}
