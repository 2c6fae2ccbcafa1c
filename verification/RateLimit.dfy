/** The fixed-window rate limiter: one Redis counter per identifier and minute, expiring 90
    seconds after its last increment. Redis answers every call. Times are in seconds. */
module RateLimit {

  datatype Key = Key(id: string, window: int)

  datatype Counter = Counter(count: nat, expires: real)

  type Counters = map<Key, Counter>

  /** `time` is the clock when the request is counted, `answered` when a refusal is written. */
  datatype Request = Request(path: string, id: string, time: real, answered: real)

  datatype Response =
    | Passed
    | Admitted(limit: nat, remaining: nat, reset: int)
    | Limited(limit: nat, reset: int, retryAfter: int)

  const WINDOW: int := 60
  const TTL: real := 90.0
  const EXEMPT_PATHS: set<string> := {"/health", "/docs", "/redoc", "/openapi.json"}

  /** int(time // 60) */
  function WindowOf(time: real): (w: int)
    ensures (WINDOW * w) as real <= time < (WINDOW * (w + 1)) as real
  {
    var w := (time / 60.0).Floor;
    assert w as real <= time / 60.0 < w as real + 1.0;
    w
  }

  predicate IsExempt(r: Request) { r.path in EXEMPT_PATHS }

  /** What is left in Redis when the clock reads `now`. */
  function Unexpired(counters: Counters, now: real): Counters {
    map k | k in counters && now < counters[k].expires :: counters[k]
  }

  function KeyFor(r: Request): Key { Key(r.id, WindowOf(r.time)) }

  /** INCR: an absent key counts from zero. */
  function Incremented(counters: Counters, r: Request): nat {
    var live := Unexpired(counters, r.time);
    if KeyFor(r) in live then live[KeyFor(r)].count + 1 else 1
  }

  function After(counters: Counters, r: Request): Counters {
    if IsExempt(r) then counters
    else Unexpired(counters, r.time)[KeyFor(r) := Counter(Incremented(counters, r), r.time + TTL)]
  }

  function Answer(limit: nat, counters: Counters, r: Request): Response {
    if IsExempt(r) then Passed
    else
      var count, reset := Incremented(counters, r), WINDOW * (WindowOf(r.time) + 1);
      if count > limit then Limited(limit, reset, reset - r.answered.Floor)
      else Admitted(limit, limit - count, reset)
  }

  class RateLimiter {
    const limit: nat
    var counters: Counters

    constructor (requestsPerMinute: nat)
      ensures limit == requestsPerMinute && counters == map[]
    {
      limit, counters := requestsPerMinute, map[];
    }

    method Dispatch(r: Request) returns (response: Response)
      modifies this
      ensures counters == After(old(counters), r)
      ensures response == Answer(limit, old(counters), r)
    {
      if r.path in EXEMPT_PATHS { return Passed; }
      var window := WindowOf(r.time);
      var key := Key(r.id, window);
      counters := Unexpired(counters, r.time);
      var count := if key in counters then counters[key].count + 1 else 1;
      counters := counters[key := Counter(count, r.time + TTL)];
      var remaining := if count <= limit then limit - count else 0;
      var reset := (window + 1) * WINDOW;
      if count > limit { return Limited(limit, reset, reset - r.answered.Floor); }
      return Admitted(limit, remaining, reset);
    }
  }

  // --- Traces --------------------------------------------------------------------------

  /** Redis after the first `n` requests. */
  function CountersAt(rs: seq<Request>, n: nat): Counters
    requires n <= |rs|
  {
    if n == 0 then map[] else After(CountersAt(rs, n - 1), rs[n - 1])
  }

  function AnswerAt(limit: nat, rs: seq<Request>, i: nat): Response
    requires i < |rs|
  {
    Answer(limit, CountersAt(rs, i), rs[i])
  }

  ghost predicate Chronological(rs: seq<Request>) {
    forall i, j :: 0 <= i <= j < |rs| ==> rs[i].time <= rs[j].time
  }

  predicate Charged(r: Request, id: string, window: int) {
    !IsExempt(r) && KeyFor(r) == Key(id, window)
  }

  /** How many of the first `n` requests the identifier made in the window. */
  function Requested(rs: seq<Request>, n: nat, id: string, window: int): nat
    requires n <= |rs|
  {
    if n == 0 then 0
    else Requested(rs, n - 1, id, window) + if Charged(rs[n - 1], id, window) then 1 else 0
  }

  /** How many of them were let through. */
  function AdmittedCount(limit: nat, rs: seq<Request>, n: nat, id: string, window: int): nat
    requires n <= |rs|
  {
    if n == 0 then 0
    else AdmittedCount(limit, rs, n - 1, id, window)
         + if Charged(rs[n - 1], id, window) && AnswerAt(limit, rs, n - 1).Admitted? then 1 else 0
  }

  /** The counter of a window that is not over holds the number of requests in it: its TTL
      never loses it mid-window. */
  lemma {:induction false} CountersCount(rs: seq<Request>, n: nat, id: string, window: int)
    requires n <= |rs| && Chronological(rs)
    requires n > 0 ==> WindowOf(rs[n - 1].time) <= window
    ensures var counters, key, requested := CountersAt(rs, n), Key(id, window), Requested(rs, n, id, window);
      && (requested == 0 ==> key !in counters)
      && (requested > 0 ==> key in counters && counters[key].count == requested
                            && counters[key].expires >= (WINDOW * window) as real + TTL)
  {
    if n > 0 {
      if n > 1 { assert rs[n - 2].time <= rs[n - 1].time; WindowsInOrder(rs[n - 2].time, rs[n - 1].time); }
      CountersCount(rs, n - 1, id, window);
      assert rs[n - 1].time < (WINDOW * (window + 1)) as real by {
        assert WINDOW * (WindowOf(rs[n - 1].time) + 1) <= WINDOW * (window + 1);
      }
    }
  }

  lemma WindowsInOrder(s: real, t: real)
    requires s <= t
    ensures WindowOf(s) <= WindowOf(t)
  {
  }

  /** A request is let through exactly when it is among the first `limit` that its identifier
      makes in its minute; the header tells how many are left. */
  lemma AnswerIsByRank(limit: nat, rs: seq<Request>, i: nat)
    requires i < |rs| && Chronological(rs) && !IsExempt(rs[i])
    ensures var rank := Requested(rs, i + 1, rs[i].id, WindowOf(rs[i].time));
      && (AnswerAt(limit, rs, i).Admitted? <==> rank <= limit)
      && (AnswerAt(limit, rs, i).Admitted? ==> AnswerAt(limit, rs, i).remaining == limit - rank)
  {
    if i > 0 { WindowsInOrder(rs[i - 1].time, rs[i].time); }
    CountersCount(rs, i, rs[i].id, WindowOf(rs[i].time));
  }

  /** The wait that a refusal asks for is at most a minute and ends just inside the next window;
      it is positive exactly when the minute is not over by the time the refusal is written. */
  lemma RefusalTellsWait(limit: nat, rs: seq<Request>, i: nat)
    requires i < |rs| && AnswerAt(limit, rs, i).Limited? && rs[i].time <= rs[i].answered
    ensures var wait, now := AnswerAt(limit, rs, i).retryAfter, rs[i].answered;
      && wait <= WINDOW && WindowOf(now + wait as real) == WindowOf(rs[i].time) + 1
      && (wait >= 1 <==> WindowOf(now) == WindowOf(rs[i].time))
  {
    RetryIsInNextWindow(rs[i].time, rs[i].answered);
  }

  lemma RetryIsInNextWindow(time: real, now: real)
    requires time <= now
    ensures var wait := WINDOW * (WindowOf(time) + 1) - now.Floor;
      && wait <= WINDOW && WindowOf(now + wait as real) == WindowOf(time) + 1
      && (wait >= 1 <==> WindowOf(now) == WindowOf(time))
  {
    var w := WindowOf(time);
    var wait := WINDOW * (w + 1) - now.Floor;
    WindowsInOrder(time, now);
    var later := now + wait as real;
    assert (WINDOW * (w + 1)) as real <= later < (WINDOW * (w + 1)) as real + 1.0;
    var v := WindowOf(later);
    assert WINDOW * v < WINDOW * (w + 1) + 1 && WINDOW * (w + 1) < WINDOW * (v + 1);
    assert WINDOW * WindowOf(now) <= now.Floor < WINDOW * (WindowOf(now) + 1);
  }

  /** Every identifier gets exactly min(limit, requests) admissions per window. */
  lemma {:induction false} AdmissionsPerWindow(limit: nat, rs: seq<Request>, n: nat, id: string, window: int)
    requires n <= |rs| && Chronological(rs)
    ensures var requested := Requested(rs, n, id, window);
      AdmittedCount(limit, rs, n, id, window) == if requested < limit then requested else limit
  {
    if n > 0 {
      AdmissionsPerWindow(limit, rs, n - 1, id, window);
      if Charged(rs[n - 1], id, window) { AnswerIsByRank(limit, rs, n - 1); }
    }
  }

  // --- Any sixty seconds -----------------------------------------------------------------

  predicate MadeBetween(r: Request, id: string, from: real, until: real) {
    !IsExempt(r) && r.id == id && from <= r.time < until
  }

  /** How many of the first `n` requests the identifier made in the interval. */
  function RequestedBetween(rs: seq<Request>, n: nat, id: string, from: real, until: real): nat
    requires n <= |rs|
  {
    if n == 0 then 0
    else RequestedBetween(rs, n - 1, id, from, until) + if MadeBetween(rs[n - 1], id, from, until) then 1 else 0
  }

  /** How many of them were let through. */
  function AdmittedBetween(limit: nat, rs: seq<Request>, n: nat, id: string, from: real, until: real): nat
    requires n <= |rs|
  {
    if n == 0 then 0
    else AdmittedBetween(limit, rs, n - 1, id, from, until)
         + if MadeBetween(rs[n - 1], id, from, until) && AnswerAt(limit, rs, n - 1).Admitted? then 1 else 0
  }

  function Min(a: nat, b: nat): nat { if a < b then a else b }

  lemma {:induction false} IntervalsAdd(limit: nat, rs: seq<Request>, n: nat, id: string, a: real, b: real, c: real)
    requires n <= |rs| && a <= b <= c
    ensures RequestedBetween(rs, n, id, a, c) == RequestedBetween(rs, n, id, a, b) + RequestedBetween(rs, n, id, b, c)
    ensures AdmittedBetween(limit, rs, n, id, a, c)
         == AdmittedBetween(limit, rs, n, id, a, b) + AdmittedBetween(limit, rs, n, id, b, c)
  {
    if n > 0 { IntervalsAdd(limit, rs, n - 1, id, a, b, c); }
  }

  function Opening(window: int): real { (WINDOW * window) as real }

  lemma WindowIsInterval(time: real, window: int)
    ensures WindowOf(time) == window <==> Opening(window) <= time < Opening(window + 1)
  {
    var w := WindowOf(time);
    if Opening(window) <= time < Opening(window + 1) {
      assert WINDOW * w < WINDOW * (window + 1) && WINDOW * window < WINDOW * (w + 1);
    }
  }

  /** Up to a moment of the window, the requests of the window are those made since it opened. */
  lemma {:induction false} SinceOpening(rs: seq<Request>, n: nat, id: string, window: int, until: real)
    requires n <= |rs| && Chronological(rs) && until <= Opening(window + 1)
    requires n > 0 ==> rs[n - 1].time < until
    ensures Requested(rs, n, id, window) == RequestedBetween(rs, n, id, Opening(window), until)
  {
    if n > 0 {
      if n > 1 { assert rs[n - 2].time <= rs[n - 1].time; }
      SinceOpening(rs, n - 1, id, window, until);
      WindowIsInterval(rs[n - 1].time, window);
    }
  }

  /** From a window's opening to any moment in it, the first `limit` requests are let through. */
  lemma {:induction false} AdmittedSinceOpening(limit: nat, rs: seq<Request>, n: nat, id: string, window: int,
                                                until: real)
    requires n <= |rs| && Chronological(rs) && until <= Opening(window + 1)
    ensures AdmittedBetween(limit, rs, n, id, Opening(window), until)
         == Min(limit, RequestedBetween(rs, n, id, Opening(window), until))
  {
    if n > 0 {
      AdmittedSinceOpening(limit, rs, n - 1, id, window, until);
      if MadeBetween(rs[n - 1], id, Opening(window), until) {
        WindowIsInterval(rs[n - 1].time, window);
        SinceOpening(rs, n, id, window, until);
        AnswerIsByRank(limit, rs, n - 1);
      }
    }
  }

  lemma NextWindow(start: real)
    ensures WindowOf(start + 60.0) == WindowOf(start) + 1
  {
  }

  /** The exact number let through in any 60 seconds, wherever they begin: of those made before
      the minute ends, as many as the minute's earlier requests have left of the limit; of those
      made after, up to the limit. At most twice the limit, then, in all. */
  lemma AnySixtySeconds(limit: nat, rs: seq<Request>, id: string, start: real)
    requires Chronological(rs)
    ensures var n, turn := |rs|, Opening(WindowOf(start) + 1);
      var earlier := RequestedBetween(rs, n, id, Opening(WindowOf(start)), start);
      var admitted := AdmittedBetween(limit, rs, n, id, start, start + 60.0);
      && admitted == Min(RequestedBetween(rs, n, id, start, turn), limit - Min(limit, earlier))
                     + Min(limit, RequestedBetween(rs, n, id, turn, start + 60.0))
      && admitted <= 2 * limit
  {
    var n, w := |rs|, WindowOf(start);
    var turn := Opening(w + 1);
    NextWindow(start);
    assert Opening(w) <= start < turn <= start + 60.0 < Opening(w + 2);
    IntervalsAdd(limit, rs, n, id, Opening(w), start, turn);
    IntervalsAdd(limit, rs, n, id, start, turn, start + 60.0);
    AdmittedSinceOpening(limit, rs, n, id, w, start);
    AdmittedSinceOpening(limit, rs, n, id, w, turn);
    AdmittedSinceOpening(limit, rs, n, id, w + 1, start + 60.0);
  }

  // --- Not a sliding window ------------------------------------------------------------

  function BurstTime(limit: nat, i: nat): real { if i < limit then 59.0 else 60.0 }

  /** `limit` requests in the last second of one minute and as many in the first of the next. */
  function Burst(limit: nat): (rs: seq<Request>)
    ensures |rs| == 2 * limit
    ensures forall i :: 0 <= i < |rs| ==> rs[i] == Request("/memories", "ip", BurstTime(limit, i), BurstTime(limit, i))
  {
    seq(2 * limit, i requires 0 <= i => Request("/memories", "ip", BurstTime(limit, i), BurstTime(limit, i)))
  }

  lemma {:induction false} BurstRequests(limit: nat, n: nat)
    requires n <= 2 * limit
    ensures Requested(Burst(limit), n, "ip", 0) == (if n < limit then n else limit)
    ensures Requested(Burst(limit), n, "ip", 1) == (if n < limit then 0 else n - limit)
  {
    if n > 0 { BurstRequests(limit, n - 1); }
  }

  lemma BurstAnswer(limit: nat, i: nat)
    requires i < 2 * limit
    ensures AnswerAt(limit, Burst(limit), i).Admitted?
  {
    BurstRequests(limit, i + 1);
    AnswerIsByRank(limit, Burst(limit), i);
  }

  lemma {:induction false} BurstIsAdmitted(limit: nat, n: nat)
    requires n <= 2 * limit
    ensures AdmittedBetween(limit, Burst(limit), n, "ip", 59.0, 61.0) == n
  {
    if n > 0 {
      BurstIsAdmitted(limit, n - 1);
      BurstAnswer(limit, n - 1);
    }
  }

  /** The limiter is described as a sliding window; it is not one. Whatever the limit, two
      seconds astride a minute's end can see twice as many requests let through. */
  lemma TwiceTheLimitWithinTwoSeconds(limit: nat)
    ensures Chronological(Burst(limit))
    ensures AdmittedBetween(limit, Burst(limit), 2 * limit, "ip", 59.0, 61.0) == 2 * limit
  {
    BurstIsAdmitted(limit, 2 * limit);
  }

  // --- What an answer tells ------------------------------------------------------------------------

  /** Four paths pass uncounted; any other request is answered with the limit and the moment, on the
      minute, at which the next minute begins. */
  lemma AnswerTells(limit: nat, counters: Counters, r: Request)
    ensures var answer := Answer(limit, counters, r);
      if r.path == "/health" || r.path == "/docs" || r.path == "/redoc" || r.path == "/openapi.json"
      then answer == Passed && After(counters, r) == counters
      else
        && !answer.Passed? && answer.limit == limit
        && answer.reset % 60 == 0 && r.time < answer.reset as real <= r.time + 60.0
        && (answer.Limited? ==> answer.retryAfter == answer.reset - r.answered.Floor)
  {
  }

  /** A request is counted under its identifier and minute, for ninety seconds; others' counters stay
      until they expire. */
  lemma RequestIsCounted(counters: Counters, r: Request)
    requires !IsExempt(r)
    ensures var counters', key := After(counters, r), Key(r.id, WindowOf(r.time));
      && key in counters' && counters'[key].expires == r.time + 90.0
      && counters'[key].count
         == (if key in counters && r.time < counters[key].expires then counters[key].count + 1 else 1)
      && (forall k :: k != key ==> (k in counters' <==> k in counters && r.time < counters[k].expires))
      && (forall k :: k != key && k in counters' ==> counters'[k] == counters[k])
  {
  }
}
