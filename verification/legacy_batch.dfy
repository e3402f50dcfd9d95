/** The legacy plate batch (`process_plate_batch`): a client-side rate
    limiter on a virtual clock, the per-plate retry on 429, and the split of
    a batch into enriched rows, invalid plates and retryable failures.

    Time is an integer clock that only moves by sleeping and by the latency
    of each request (`latency(n)` for the n-th request of the run). The reply
    to the n-th request for plate `p` is `reply(p, n)`. */
module LegacyBatch {
  import opened Wrappers
  import opened PlateApi
  import WorkStatus

  const REQUESTS_PER_WINDOW: nat := 5
  const WINDOW_DURATION: int := 60
  const SAFETY_MARGIN: int := 3
  const MIN_INTERVAL: int := 10

  /** `[t for t in ts if now - t < WINDOW_DURATION]`. */
  function Recent(ts: seq<int>, now: int): (r: seq<int>)
    ensures |r| <= |ts|
    ensures forall i :: 0 <= i < |r| ==> now - r[i] < WINDOW_DURATION
  {
    if |ts| == 0 then []
    else if now - ts[0] < WINDOW_DURATION then [ts[0]] + Recent(ts[1..], now)
    else Recent(ts[1..], now)
  }

  predicate Increasing(s: seq<int>) {
    forall i, j :: 0 <= i < j < |s| ==> s[i] < s[j]
  }

  /** On increasing timestamps the filter drops a prefix, and everything it
      drops is at least a window old. */
  lemma {:induction false} RecentOfIncreasing(ts: seq<int>, now: int)
    requires Increasing(ts)
    ensures Recent(ts, now) == ts[|ts| - |Recent(ts, now)|..]
    ensures forall j :: 0 <= j < |ts| - |Recent(ts, now)| ==> now - ts[j] >= WINDOW_DURATION
  {
    if |ts| > 0 {
      RecentOfIncreasing(ts[1..], now);
      if now - ts[0] < WINDOW_DURATION {
        assert forall j :: 0 < j < |ts| ==> now - ts[j] < WINDOW_DURATION;
        KeepAll(ts[1..], now);
      }
    }
  }

  lemma {:induction false} KeepAll(ts: seq<int>, now: int)
    requires forall j :: 0 <= j < |ts| ==> now - ts[j] < WINDOW_DURATION
    ensures Recent(ts, now) == ts
  {
    if |ts| > 0 {
      KeepAll(ts[1..], now);
    }
  }

  /** Consecutive requests are at least `MIN_INTERVAL` apart. */
  predicate MinGapOK(d: seq<int>) {
    forall i, j :: 0 <= i < |d| && j == i + 1 && j < |d| ==> d[j] - d[i] >= MIN_INTERVAL
  }

  /** Any request is at least a window after the fifth request before it,
      i.e. no window of 60 s holds more than five requests. */
  predicate WindowOK(d: seq<int>) {
    forall i, j :: 0 <= i < |d| && j == i + REQUESTS_PER_WINDOW && j < |d| ==> d[j] - d[i] >= WINDOW_DURATION
  }

  predicate NoRateLimit(o: seq<Lookup>) {
    forall j :: 0 <= j < |o| ==> o[j] != RateLimited
  }

  lemma {:induction false} MinGapIncreasing(d: seq<int>)
    requires MinGapOK(d)
    ensures Increasing(d)
    decreases |d|
  {
    if |d| > 1 {
      var e := d[..|d| - 1];
      assert MinGapOK(e);
      MinGapIncreasing(e);
      forall i | 0 <= i < |d| - 1 ensures d[i] < d[|d| - 1] {
        assert d[i] == e[i];
        if i < |d| - 2 { assert e[i] < e[|d| - 2]; }
      }
    }
  }

  lemma SuffixIncreasing(d: seq<int>, k: nat)
    requires Increasing(d) && k <= |d|
    ensures Increasing(d[k..])
  {
  }

  /** The limiter's state: the clock, the sliding window of request times,
      the last request time, and the history of every request (time and
      outcome). */
  datatype Clock = Clock(now: int, window: seq<int>, last: Option<int>, dispatched: seq<int>, outcomes: seq<Lookup>)

  /** What always holds between requests: one outcome per request, the
      minimum gap, and `last` is the latest request, not in the future. */
  predicate Base(c: Clock) {
    |c.outcomes| == |c.dispatched|
    && MinGapOK(c.dispatched)
    && (|c.dispatched| == 0 ==> c.last == None && c.window == [])
    && (|c.dispatched| > 0 ==> c.last == Some(c.dispatched[|c.dispatched| - 1]) && c.dispatched[|c.dispatched| - 1] <= c.now)
  }

  /** The window `w` is exactly the most recent requests of `d`, at most
      five, every request that left it is at least a window old at `now`,
      and the history keeps the five-per-window rule. */
  predicate TightAt(w: seq<int>, d: seq<int>, now: int) {
    |w| <= REQUESTS_PER_WINDOW && |w| <= |d|
    && w == d[|d| - |w|..]
    && (forall j :: 0 <= j < |d| - |w| ==> d[j] + WINDOW_DURATION <= now)
    && WindowOK(d)
  }

  predicate Tight(c: Clock) {
    TightAt(c.window, c.dispatched, c.now)
  }

  /** What holds between requests: `Tight` lasts until the first rate limit
      (a retry adds a request without the window check). */
  predicate Good(c: Clock) {
    Base(c) && (NoRateLimit(c.outcomes) ==> Tight(c))
  }

  function Start(now: int): (c: Clock)
    ensures Good(c)
  {
    Clock(now, [], None, [], [])
  }

  lemma SuffixOfSuffix(d: seq<int>, w: seq<int>, v: seq<int>)
    requires |v| <= |w| <= |d|
    requires w == d[|d| - |w|..] && v == w[|w| - |v|..]
    ensures v == d[|d| - |v|..]
  {
    assert forall i :: 0 <= i < |v| ==> v[i] == w[|w| - |v| + i] == d[|d| - |v| + i];
  }

  /** Filtering an in-order window keeps a suffix of it, and whatever it
      drops is at least a window old at the new time. */
  lemma FilterDropsOld(c: Clock, t: int)
    requires Base(c) && Tight(c)
    ensures var v := Recent(c.window, t);
      c.window[|c.window| - |v|..] == v
      && forall j :: 0 <= j < |c.window| - |v| ==> c.window[j] + WINDOW_DURATION <= t
  {
    MinGapIncreasing(c.dispatched);
    SuffixIncreasing(c.dispatched, |c.dispatched| - |c.window|);
    RecentOfIncreasing(c.window, t);
  }

  lemma FilterKeepsTight(c: Clock, t: int)
    requires Base(c) && Tight(c) && t >= c.now
    ensures TightAt(Recent(c.window, t), c.dispatched, t)
  {
    FilterDropsOld(c, t);
    TightAfterFilter(c.window, c.dispatched, c.now, t);
  }

  lemma TightAfterFilter(w: seq<int>, d: seq<int>, now: int, t: int)
    requires TightAt(w, d, now) && now <= t
    requires var v := Recent(w, t);
      w[|w| - |v|..] == v && forall j :: 0 <= j < |w| - |v| ==> w[j] + WINDOW_DURATION <= t
    ensures TightAt(Recent(w, t), d, t)
  {
    var v := Recent(w, t);
    SuffixOfSuffix(d, w, v);
    OldStaysOld(d, w, v, now, t);
  }

  lemma OldStaysOld(d: seq<int>, w: seq<int>, v: seq<int>, now: int, t: int)
    requires |v| <= |w| <= |d| && w == d[|d| - |w|..] && now <= t
    requires forall j :: 0 <= j < |d| - |w| ==> d[j] + WINDOW_DURATION <= now
    requires forall j :: 0 <= j < |w| - |v| ==> w[j] + WINDOW_DURATION <= t
    ensures forall j :: 0 <= j < |d| - |v| ==> d[j] + WINDOW_DURATION <= t
  {
    forall j | 0 <= j < |d| - |v| ensures d[j] + WINDOW_DURATION <= t {
      if j >= |d| - |w| {
        assert d[j] == w[j - (|d| - |w|)];
      }
    }
  }

  lemma PopKeepsTight(w: seq<int>, d: seq<int>, now: int, t: int)
    requires TightAt(w, d, now) && |w| > 0 && t >= now && t - w[0] >= WINDOW_DURATION
    ensures TightAt(w[1..], d, t)
  {
    assert w[1..] == d[|d| - |w| + 1..];
    assert d[|d| - |w|] == w[0];
  }

  /** Moving the clock forward and dropping stale window entries keeps the
      limiter's invariant. */
  lemma AdvanceKeepsGood(c: Clock, t: int)
    requires Good(c) && t >= c.now
    ensures Good(c.(now := t, window := Recent(c.window, t)))
  {
    if NoRateLimit(c.outcomes) {
      FilterKeepsTight(c, t);
    }
  }

  /** Dropping the oldest of five window entries once it is a window old
      keeps the limiter's invariant. */
  lemma PopKeepsGood(f: Clock, t: int)
    requires Good(f) && t >= f.now && |f.window| >= REQUESTS_PER_WINDOW
    requires t - f.window[0] >= WINDOW_DURATION
    ensures Good(f.(now := t, window := f.window[1..]))
  {
    if NoRateLimit(f.outcomes) {
      PopKeepsTight(f.window, f.dispatched, f.now, t);
    }
  }

  /** Rules 1-3 before a plate's first request: wait out the minimum
      interval, drop stale window entries, and when five remain wait until
      the oldest is 63 s old and drop it. */
  function Gate(c: Clock): (g: Clock)
    requires Good(c)
    ensures Good(g)
    ensures g.dispatched == c.dispatched && g.outcomes == c.outcomes && g.last == c.last
    ensures g.now >= c.now
    ensures g.last.Some? ==> g.now - g.last.value >= MIN_INTERVAL
    ensures NoRateLimit(g.outcomes) ==> |g.window| < REQUESTS_PER_WINDOW
  {
    var now1 := if c.last.Some? && c.now - c.last.value < MIN_INTERVAL then c.last.value + MIN_INTERVAL else c.now;
    var f := c.(now := now1, window := Recent(c.window, now1));
    AdvanceKeepsGood(c, now1);
    if |f.window| >= REQUESTS_PER_WINDOW then
      var wait := WINDOW_DURATION + SAFETY_MARGIN - (now1 - f.window[0]);
      var now2 := if wait > 0 then now1 + wait else now1;
      PopKeepsGood(f, now2);
      f.(now := now2, window := f.window[1..])
    else
      f
  }

  lemma AppendKeepsMinGap(d: seq<int>, t: int)
    requires MinGapOK(d) && (|d| > 0 ==> t - d[|d| - 1] >= MIN_INTERVAL)
    ensures MinGapOK(d + [t])
  {
    if |d| > 0 {
      assert (d + [t])[|d|] - (d + [t])[|d| - 1] >= MIN_INTERVAL;
    }
  }

  /** A request made while the window holds fewer than five entries keeps
      the window exact and the five-per-window rule. */
  lemma AppendKeepsTight(w: seq<int>, d: seq<int>, now: int, t: int)
    requires TightAt(w, d, now) && |w| < REQUESTS_PER_WINDOW && now <= t
    ensures TightAt(w + [now], d + [now], t)
  {
    var e := d + [now];
    var n := |d|;
    assert w + [now] == e[|e| - |w + [now]|..];
    forall i | REQUESTS_PER_WINDOW <= i < |e|
      ensures e[i] - e[i - REQUESTS_PER_WINDOW] >= WINDOW_DURATION
    {
      if i == n {
        assert i - REQUESTS_PER_WINDOW < n - |w|;
      } else {
        assert e[i] == d[i] && e[i - REQUESTS_PER_WINDOW] == d[i - REQUESTS_PER_WINDOW];
      }
    }
  }

  lemma NoRateLimitPrefix(o: seq<Lookup>, x: Lookup)
    requires NoRateLimit(o + [x])
    ensures NoRateLimit(o)
  {
    forall j | 0 <= j < |o| ensures o[j] != RateLimited {
      assert (o + [x])[j] == o[j];
    }
  }

  /** A request at the current time keeps the clock good. */
  lemma DispatchGood(c: Clock, outcome: Lookup, latency: nat)
    requires Good(c)
    requires c.last.Some? ==> c.now - c.last.value >= MIN_INTERVAL
    requires NoRateLimit(c.outcomes) ==> |c.window| < REQUESTS_PER_WINDOW
    ensures Good(Clock(c.now + latency, c.window + [c.now], Some(c.now), c.dispatched + [c.now], c.outcomes + [outcome]))
  {
    var d := Clock(c.now + latency, c.window + [c.now], Some(c.now), c.dispatched + [c.now], c.outcomes + [outcome]);
    AppendKeepsMinGap(c.dispatched, c.now);
    if NoRateLimit(d.outcomes) {
      NoRateLimitPrefix(c.outcomes, outcome);
      AppendKeepsTight(c.window, c.dispatched, c.now, c.now + latency);
    }
  }

  /** One request at the current time: it joins the window and the history,
      and the clock advances by its latency. */
  function Dispatch(c: Clock, outcome: Lookup, latency: nat): (d: Clock)
    requires Good(c)
    requires c.last.Some? ==> c.now - c.last.value >= MIN_INTERVAL
    requires NoRateLimit(c.outcomes) ==> |c.window| < REQUESTS_PER_WINDOW
    ensures Good(d)
    ensures d.dispatched == c.dispatched + [c.now] && d.outcomes == c.outcomes + [outcome]
    ensures d.now == c.now + latency && d.last == Some(c.now)
  {
    DispatchGood(c, outcome, latency);
    Clock(c.now + latency, c.window + [c.now], Some(c.now), c.dispatched + [c.now], c.outcomes + [outcome])
  }

  /** The sleep after the `attempt`-th rate limit, then the window filter. */
  function AfterBackoff(c: Clock, attempt: nat): (b: Clock)
    requires Good(c) && !NoRateLimit(c.outcomes)
    ensures Good(b) && !NoRateLimit(b.outcomes)
    ensures b.dispatched == c.dispatched && b.outcomes == c.outcomes && b.last == c.last
    ensures b.now == c.now + Backoff(attempt)
    ensures b.last.Some? ==> b.now - b.last.value >= MIN_INTERVAL
  {
    var now := c.now + Backoff(attempt);
    c.(now := now, window := Recent(c.window, now))
  }

  /** How one plate ended in the batch loop. */
  datatype PlateEnd = Fetched(record: map<string, Json>) | Refused(reason: Json) | GaveUp | Empty

  /** The lookup the n-th request of the run makes for `plate`, as the loop
      reads it. */
  function LookupAt(plate: string, reply: (string, nat) -> Http, n: nat): Lookup {
    AsSeen(LegacyQuery(plate, (q: string) => reply(q, n)))
  }

  /** The lookups of `plate`, by request number. */
  function Looks(plate: string, reply: (string, nat) -> Http): nat -> Lookup {
    (n: nat) => LookupAt(plate, reply, n)
  }

  /** The lookups of every plate. */
  function AllLooks(reply: (string, nat) -> Http): (looks: string -> nat -> Lookup)
    ensures forall p :: looks(p) == Looks(p, reply)
  {
    p => Looks(p, reply)
  }

  /** `c` may send its next request now. */
  predicate Ready(c: Clock) {
    Good(c)
    && (c.last.Some? ==> c.now - c.last.value >= MIN_INTERVAL)
    && (NoRateLimit(c.outcomes) ==> |c.window| < REQUESTS_PER_WINDOW)
  }

  /** `e` continues `c`: same past, later time, and every later request was
      the lookup `look` gives for its number. */
  predicate Extends(c: Clock, e: Clock, look: nat -> Lookup) {
    |c.dispatched| <= |e.dispatched| && |c.outcomes| <= |e.outcomes|
    && e.dispatched[..|c.dispatched|] == c.dispatched && e.outcomes[..|c.outcomes|] == c.outcomes
    && e.now >= c.now
    && forall j :: |c.outcomes| <= j < |e.outcomes| ==> e.outcomes[j] == look(j)
  }

  predicate RateLimitedFrom(o: seq<Lookup>, k: nat, n: int) {
    forall j :: k <= j < n && j < |o| ==> o[j] == RateLimited
  }

  /** Appending keeps a prefix. */
  lemma PrefixOfAppend<T>(a: seq<T>, b: seq<T>, x: T)
    requires |b| <= |a| && a[..|b|] == b
    ensures (a + [x])[..|b|] == b
  {
    assert (a + [x])[..|b|] == a[..|b|];
  }

  lemma DispatchExtends(c: Clock, cur: Clock, d: Clock, look: nat -> Lookup)
    requires Extends(c, cur, look) && |cur.outcomes| == |cur.dispatched|
    requires d.dispatched == cur.dispatched + [cur.now]
    requires d.outcomes == cur.outcomes + [look(|cur.outcomes|)]
    requires d.now >= cur.now
    ensures Extends(c, d, look)
  {
    PrefixOfAppend(cur.dispatched, c.dispatched, cur.now);
    PrefixOfAppend(cur.outcomes, c.outcomes, look(|cur.outcomes|));
    forall j | |c.outcomes| <= j < |d.outcomes| ensures d.outcomes[j] == look(j) {
      if j < |cur.outcomes| {
        assert d.outcomes[j] == cur.outcomes[j];
      } else {
        assert d.outcomes[|cur.outcomes|] == look(|cur.outcomes|);
      }
    }
  }

  function ServeStep(cur: Clock, look: nat -> Lookup, latency: nat -> nat): (d: Clock)
    requires Ready(cur)
    ensures Good(d)
    ensures d.dispatched == cur.dispatched + [cur.now]
    ensures d.outcomes == cur.outcomes + [look(|cur.dispatched|)]
    ensures d.now >= cur.now
  {
    Dispatch(cur, look(|cur.dispatched|), latency(|cur.dispatched|))
  }

  /** The ending a plate's last outcome gives it. */
  predicate EndsWith(res: PlateEnd, last: Lookup) {
    match res
    case Fetched(rec) => last == Found(rec)
    case Refused(reason) => last == Rejected(reason)
    case Empty => last == NoData
    case GaveUp => last == RateLimited
  }

  /** One request of the retry loop and, on a 429 that is not the fifth,
      the back-off sleep after it. */
  method Attempt(c: Clock, cur: Clock, attempts: nat, look: nat -> Lookup, latency: nat -> nat)
    returns (next: Clock, done: bool, res: PlateEnd)
    requires Ready(cur) && attempts < MAX_RETRIES
    requires Extends(c, cur, look) && |cur.dispatched| == |c.dispatched| + attempts
    ensures Good(next) && Extends(c, next, look)
    ensures |next.dispatched| == |cur.dispatched| + 1 && |next.outcomes| == |cur.outcomes| + 1
    ensures next.outcomes[..|cur.outcomes|] == cur.outcomes
    ensures done ==> EndsWith(res, next.outcomes[|cur.outcomes|])
    ensures done && res.GaveUp? ==> attempts + 1 == MAX_RETRIES
    ensures !done ==> Ready(next) && attempts + 1 < MAX_RETRIES && next.outcomes[|cur.outcomes|] == RateLimited
  {
    var n := |cur.dispatched|;
    next := ServeStep(cur, look, latency);
    DispatchExtends(c, cur, next, look);
    assert next.outcomes[..|cur.outcomes|] == cur.outcomes;
    var out := next.outcomes[n];
    done := true;
    match out {
      case Rejected(reason) => res := Refused(reason);
      case Found(rec) => res := Fetched(rec);
      case NoData => res := Empty;
      case RateLimited =>
        res := GaveUp;
        if attempts + 1 < MAX_RETRIES {
          assert !NoRateLimit(next.outcomes);
          next := AfterBackoff(next, attempts + 1);
          done := false;
        }
    }
  }

  lemma RateLimitedGrows(o: seq<Lookup>, p: seq<Lookup>, k: nat)
    requires RateLimitedFrom(o, k, |o|) && |p| == |o| + 1 && p[..|o|] == o && p[|o|] == RateLimited
    ensures RateLimitedFrom(p, k, |p|)
  {
    forall j | k <= j < |p| ensures p[j] == RateLimited {
      if j < |o| { assert p[j] == o[j]; }
    }
  }

  lemma RateLimitedBeforeLast(o: seq<Lookup>, p: seq<Lookup>, k: nat)
    requires RateLimitedFrom(o, k, |o|) && |p| == |o| + 1 && p[..|o|] == o
    ensures RateLimitedFrom(p, k, |p| - 1)
  {
    forall j | k <= j < |p| - 1 ensures p[j] == RateLimited {
      assert p[j] == o[j];
    }
  }

  /** How a plate's requests from the `from`-th on left the clock `e`:
      every request but the last was answered 429, the last decided `res`,
      and giving up took all five. */
  predicate Served(c: Clock, from: nat, e: Clock, res: PlateEnd, look: nat -> Lookup) {
    Good(e) && Extends(c, e, look)
    && from < |e.dispatched| <= |c.dispatched| + MAX_RETRIES
    && |e.outcomes| == |e.dispatched|
    && RateLimitedFrom(e.outcomes, |c.outcomes|, |e.outcomes| - 1)
    && EndsWith(res, e.outcomes[|e.outcomes| - 1])
    && (res.GaveUp? ==> |e.dispatched| == |c.dispatched| + MAX_RETRIES)
  }

  lemma ServedEarlier(c: Clock, from: nat, from': nat, e: Clock, res: PlateEnd, look: nat -> Lookup)
    requires Served(c, from', e, res, look) && from <= from'
    ensures Served(c, from, e, res, look)
  {
  }

  /** The requests of one plate from the `attempts`-th on: every earlier
      request of the plate was answered 429. */
  method Retry(c: Clock, cur: Clock, attempts: nat, look: nat -> Lookup, latency: nat -> nat)
    returns (e: Clock, res: PlateEnd)
    requires Ready(cur) && attempts < MAX_RETRIES
    requires Extends(c, cur, look) && |cur.dispatched| == |c.dispatched| + attempts
    requires RateLimitedFrom(cur.outcomes, |c.outcomes|, |cur.outcomes|)
    ensures Served(c, |cur.dispatched|, e, res, look)
    decreases MAX_RETRIES - attempts
  {
    var next, done;
    next, done, res := Attempt(c, cur, attempts, look, latency);
    assert |next.outcomes| == |next.dispatched| by {
      assert Base(next);
    }
    if done {
      RateLimitedBeforeLast(cur.outcomes, next.outcomes, |c.outcomes|);
      assert |next.outcomes| - 1 == |cur.outcomes|;
      e := next;
    } else {
      RateLimitedGrows(cur.outcomes, next.outcomes, |c.outcomes|);
      e, res := Retry(c, next, attempts + 1, look, latency);
      ServedEarlier(c, |cur.dispatched|, |next.dispatched|, e, res, look);
    }
  }

  /** One plate: the gate, then up to five requests while the answer is 429,
      sleeping `Backoff(attempt)` after each. */
  method ServePlate(c: Clock, look: nat -> Lookup, latency: nat -> nat)
    returns (e: Clock, res: PlateEnd)
    requires Good(c)
    ensures Good(e) && Extends(c, e, look)
    ensures |c.dispatched| < |e.dispatched| <= |c.dispatched| + MAX_RETRIES
    ensures |e.outcomes| == |e.dispatched|
    ensures RateLimitedFrom(e.outcomes, |c.outcomes|, |e.outcomes| - 1)
    ensures EndsWith(res, e.outcomes[|e.outcomes| - 1])
    ensures res.GaveUp? ==> |e.dispatched| == |c.dispatched| + MAX_RETRIES
    ensures Served(c, |c.dispatched|, e, res, look)
    ensures PlateAnswer(look, |c.dispatched|, 0) == (res, |e.dispatched| - |c.dispatched|)
  {
    var cur := Gate(c);
    assert cur.dispatched[..|c.dispatched|] == c.dispatched;
    assert cur.outcomes[..|c.outcomes|] == c.outcomes;
    e, res := Retry(c, cur, 0, look, latency);
    assert Served(c, |cur.dispatched|, e, res, look);
    ServedAnswer(c, e, res, look);
  }

  /** The row plates of a batch result. */
  function RowPlates(rows: seq<(string, map<string, Json>)>): (ps: seq<string>)
    ensures |ps| == |rows| && forall i :: 0 <= i < |rows| ==> ps[i] == rows[i].0
  {
    if |rows| == 0 then [] else [rows[0].0] + RowPlates(rows[1..])
  }

  /** The three outputs of a batch: enriched rows, invalid plates with
      their reason, and plates to retry later. */
  datatype Buckets = Buckets(rows: seq<(string, map<string, Json>)>, invalid: map<string, Json>, failed: seq<string>)

  /** `p` has appeared in some bucket. */
  predicate Placed(p: string, b: Buckets) {
    p in RowPlates(b.rows) || p in b.invalid || p in b.failed
  }

  /** Exactly one of: an enriched row, an invalid entry, a failure entry. */
  predicate OneBucket(p: string, b: Buckets) {
    var r := p in RowPlates(b.rows);
    var i := p in b.invalid;
    var f := p in b.failed;
    (r && !i && !f) || (!r && i && !f) || (!r && !i && f)
  }

  /** Where a plate's ending puts it: a record becomes a row, a refusal an
      invalid entry with its reason, the fifth 429 and an empty answer a
      failure (the latter only once per plate). */
  function Place(b: Buckets, plate: string, res: PlateEnd): (b': Buckets)
    ensures res.Fetched? ==> b'.rows == b.rows + [(plate, res.record)] && b'.invalid == b.invalid && b'.failed == b.failed
    ensures res.Refused? ==> b'.invalid == b.invalid[plate := res.reason] && b'.rows == b.rows && b'.failed == b.failed
    ensures res.GaveUp? ==> b'.failed == b.failed + [plate] && b'.rows == b.rows && b'.invalid == b.invalid
    ensures res.Empty? ==> b'.rows == b.rows && b'.invalid == b.invalid
    ensures res.Empty? ==> b'.failed == (if plate in b.invalid || plate in b.failed then b.failed else b.failed + [plate])
  {
    match res
    case Fetched(rec) => b.(rows := b.rows + [(plate, rec)])
    case Refused(reason) => b.(invalid := b.invalid[plate := reason])
    case GaveUp => b.(failed := b.failed + [plate])
    case Empty => if plate !in b.invalid && plate !in b.failed then b.(failed := b.failed + [plate]) else b
  }

  lemma RowPlatesAppend(rows: seq<(string, map<string, Json>)>, r: (string, map<string, Json>))
    ensures RowPlates(rows + [r]) == RowPlates(rows) + [r.0]
  {
    var x := RowPlates(rows + [r]);
    assert forall i :: 0 <= i < |x| ==> x[i] == (rows + [r])[i].0;
  }

  /** Placing one plate touches no other plate's bucket, and a plate placed
      for the first time lands in exactly one bucket. */
  lemma PlaceSorts(b: Buckets, plate: string, res: PlateEnd)
    ensures forall p :: p != plate ==> (Placed(p, Place(b, plate, res)) <==> Placed(p, b))
    ensures forall p :: p != plate ==> (OneBucket(p, Place(b, plate, res)) <==> OneBucket(p, b))
    ensures !Placed(plate, b) ==> OneBucket(plate, Place(b, plate, res))
    ensures Placed(plate, Place(b, plate, res))
  {
    if res.Fetched? {
      RowPlatesAppend(b.rows, (plate, res.record));
    }
  }

  // ---------------------------------------------------------------------------
  // The batch without the clock
  // ---------------------------------------------------------------------------

  /** How a plate whose first request is the n-th of the run ends, and how
      many requests it takes, `attempts` rate limits having been spent. */
  function PlateAnswer(look: nat -> Lookup, n: nat, attempts: nat): (a: (PlateEnd, nat))
    requires attempts < MAX_RETRIES
    ensures 1 <= a.1 <= MAX_RETRIES - attempts
    decreases MAX_RETRIES - attempts
  {
    match look(n)
    case Found(rec) => (Fetched(rec), 1)
    case Rejected(reason) => (Refused(reason), 1)
    case NoData => (Empty, 1)
    case RateLimited =>
      if attempts + 1 == MAX_RETRIES then (GaveUp, 1)
      else
        var a := PlateAnswer(look, n + 1, attempts + 1);
        (a.0, a.1 + 1)
  }

  /** Every request of the plate but the last was answered 429, the last
      one decided its ending, and it gave up only after all five. */
  lemma {:induction false} PlateAnswerShape(look: nat -> Lookup, n: nat, attempts: nat)
    requires attempts < MAX_RETRIES
    ensures var a := PlateAnswer(look, n, attempts);
            (forall j :: n <= j < n + a.1 - 1 ==> look(j) == RateLimited)
            && EndsWith(a.0, look(n + a.1 - 1))
            && (a.0.GaveUp? <==> a.1 == MAX_RETRIES - attempts && look(n + a.1 - 1) == RateLimited)
    decreases MAX_RETRIES - attempts
  {
    if look(n) == RateLimited && attempts + 1 < MAX_RETRIES {
      PlateAnswerShape(look, n + 1, attempts + 1);
    }
  }

  /** The requests a plate made determine its answer. */
  lemma {:induction false} PlateAnswerOf(look: nat -> Lookup, n: nat, attempts: nat, m: nat, res: PlateEnd)
    requires attempts < MAX_RETRIES && 1 <= m <= MAX_RETRIES - attempts
    requires forall j :: n <= j < n + m - 1 ==> look(j) == RateLimited
    requires EndsWith(res, look(n + m - 1))
    requires res.GaveUp? ==> m == MAX_RETRIES - attempts
    ensures PlateAnswer(look, n, attempts) == (res, m)
    decreases m
  {
    if m > 1 {
      assert look(n) == RateLimited;
      PlateAnswerOf(look, n + 1, attempts + 1, m - 1, res);
    }
  }

  /** A left fold of `step` over the plates. */
  function Fold<S>(plates: seq<string>, step: (S, string) -> S, s: S): S
    decreases |plates|
  {
    if plates == [] then s else Fold(plates[1..], step, step(s, plates[0]))
  }

  lemma FoldStep<S>(plates: seq<string>, k: nat, step: (S, string) -> S, s: S)
    requires k < |plates|
    ensures Fold(plates[k..], step, s) == Fold(plates[k + 1..], step, step(s, plates[k]))
  {
    assert plates[k..][1..] == plates[k + 1..];
  }

  /** The fold after plate `k`, which made the requests from the `n`-th to
      the `n'`-th. */
  lemma FoldAdvance(plates: seq<string>, k: nat, looks: string -> nat -> Lookup, out: Buckets, n: nat, res: PlateEnd, n': nat, goal: (Buckets, nat))
    requires k < |plates| && Fold(plates[k..], Take(AnswerOf(looks)), (out, n)) == goal
    requires n <= n' && PlateAnswer(looks(plates[k]), n, 0) == (res, n' - n)
    ensures Fold(plates[k + 1..], Take(AnswerOf(looks)), (Place(out, plates[k], res), n')) == goal
  {
    FoldStep(plates, k, Take(AnswerOf(looks)), (out, n));
    assert AnswerOf(looks)(plates[k], n) == (res, n' - n);
    assert Take(AnswerOf(looks))((out, n), plates[k]) == (Place(out, plates[k], res), n');
  }

  /** How each plate ends, and how many requests it takes, when its first
      request is the n-th of the run. */
  function AnswerOf(looks: string -> nat -> Lookup): (string, nat) -> (PlateEnd, nat)
  {
    (p: string, n: nat) => PlateAnswer(looks(p), n, 0)
  }

  /** One plate of the batch: it takes the next requests of the run and is
      placed by its answer. */
  function TakeOne(ans: (string, nat) -> (PlateEnd, nat), s: (Buckets, nat), p: string): (Buckets, nat)
  {
    var a := ans(p, s.1);
    (Place(s.0, p, a.0), s.1 + a.1)
  }

  function Take(ans: (string, nat) -> (PlateEnd, nat)): ((Buckets, nat), string) -> (Buckets, nat)
  {
    (s: (Buckets, nat), p: string) => TakeOne(ans, s, p)
  }

  /** The batch as a fold over the plates. Returns the buckets and the
      number of requests made. */
  function BatchSpec(plates: seq<string>, ans: (string, nat) -> (PlateEnd, nat), b: Buckets, n: nat): (r: (Buckets, nat))
  {
    Fold(plates, Take(ans), (b, n))
  }

  /** The ending of each plate, in order. */
  function PlateEnds(plates: seq<string>, ans: (string, nat) -> (PlateEnd, nat), n: nat): (ends: seq<PlateEnd>)
    ensures |ends| == |plates|
    decreases |plates|
  {
    if plates == [] then []
    else
      var a := ans(plates[0], n);
      [a.0] + PlateEnds(plates[1..], ans, n + a.1)
  }

  /** Plate `p` sits where ending `e` puts it: a row with the record, an
      invalid entry with the reason, or a failure. */
  predicate Lands(p: string, e: PlateEnd, b: Buckets) {
    match e
    case Fetched(rec) => (p, rec) in b.rows
    case Refused(reason) => p in b.invalid && b.invalid[p] == reason
    case GaveUp => p in b.failed
    case Empty => p in b.failed
  }

  /** Placing another plate keeps where `p` sits. */
  lemma PlaceKeeps(b: Buckets, q: string, a: PlateEnd, p: string, e: PlateEnd)
    requires p != q && Lands(p, e, b)
    ensures Lands(p, e, Place(b, q, a))
  {
    var b1 := Place(b, q, a);
    if e.Fetched? {
      var j :| 0 <= j < |b.rows| && b.rows[j] == (p, e.record);
      assert b1.rows[j] == b.rows[j];
    }
    if e.GaveUp? || e.Empty? {
      var j :| 0 <= j < |b.failed| && b.failed[j] == p;
      assert b1.failed[j] == b.failed[j];
    }
  }

  /** Later plates keep what an earlier plate was given. */
  lemma {:induction false} SpecKeeps(plates: seq<string>, ans: (string, nat) -> (PlateEnd, nat), b: Buckets, n: nat, p: string, e: PlateEnd)
    requires p !in plates && Lands(p, e, b)
    ensures Lands(p, e, BatchSpec(plates, ans, b, n).0)
    decreases |plates|
  {
    if plates != [] {
      var a := ans(plates[0], n);
      var b1 := Place(b, plates[0], a.0);
      assert Take(ans)((b, n), plates[0]) == (b1, n + a.1);
      PlaceKeeps(b, plates[0], a.0, p, e);
      SpecKeeps(plates[1..], ans, b1, n + a.1, p, e);
    }
  }

  /** The tail of distinct plates is distinct and lacks the head. */
  lemma DistinctTail(plates: seq<string>)
    requires WorkStatus.Distinct(plates) && |plates| > 0
    ensures WorkStatus.Distinct(plates[1..]) && plates[0] !in plates[1..]
  {
    var rest := plates[1..];
    forall j | 0 <= j < |rest| ensures rest[j] != plates[0] {
      assert rest[j] == plates[j + 1];
    }
    forall i, j | 0 <= i < j < |rest| ensures rest[i] != rest[j] {
      assert rest[i] == plates[i + 1] && rest[j] == plates[j + 1];
    }
  }

  /** A plate not placed yet lands where its ending puts it. */
  lemma PlaceLands(b: Buckets, p: string, a: PlateEnd)
    requires !Placed(p, b)
    ensures Lands(p, a, Place(b, p, a))
  {
    var b1 := Place(b, p, a);
    if a.Fetched? {
      assert b1.rows[|b.rows|] == (p, a.record);
    }
    if a.GaveUp? || a.Empty? {
      assert b1.failed[|b.failed|] == p;
    }
  }

  /** Placing the head leaves the rest of distinct plates unplaced. */
  lemma PlaceLeavesRest(plates: seq<string>, b: Buckets, a: PlateEnd)
    requires WorkStatus.Distinct(plates) && |plates| > 0
    requires forall p :: Placed(p, b) ==> p !in plates
    ensures forall p :: Placed(p, Place(b, plates[0], a)) ==> p !in plates[1..]
  {
    DistinctTail(plates);
    PlaceSorts(b, plates[0], a);
    forall p | p in plates[1..] ensures !Placed(p, Place(b, plates[0], a)) {
      assert p != plates[0];
      assert p in plates;
    }
  }

  /** The first plate of the batch and the rest. */
  lemma SpecHead(plates: seq<string>, ans: (string, nat) -> (PlateEnd, nat), b: Buckets, n: nat)
    requires |plates| > 0
    ensures var a := ans(plates[0], n);
            && BatchSpec(plates, ans, b, n) == BatchSpec(plates[1..], ans, Place(b, plates[0], a.0), n + a.1)
            && PlateEnds(plates, ans, n) == [a.0] + PlateEnds(plates[1..], ans, n + a.1)
  {
    var a := ans(plates[0], n);
    assert Take(ans)((b, n), plates[0]) == (Place(b, plates[0], a.0), n + a.1);
  }

  lemma LandsSame(p: string, e: PlateEnd, b: Buckets, p': string, e': PlateEnd, b': Buckets)
    requires Lands(p', e', b') && p == p' && e == e' && b == b'
    ensures Lands(p, e, b)
  {
  }

  /** With distinct plates none of which is placed yet, every plate ends
      where its own answer puts it. */
  lemma {:induction false} SpecPlacesEach(plates: seq<string>, ans: (string, nat) -> (PlateEnd, nat), b: Buckets, n: nat, k: nat)
    requires WorkStatus.Distinct(plates) && k < |plates|
    requires forall p :: Placed(p, b) ==> p !in plates
    ensures Lands(plates[k], PlateEnds(plates, ans, n)[k], BatchSpec(plates, ans, b, n).0)
    decreases |plates|
  {
    var a := ans(plates[0], n);
    var b1 := Place(b, plates[0], a.0);
    var rest := plates[1..];
    var ends := PlateEnds(rest, ans, n + a.1);
    var fin := BatchSpec(rest, ans, b1, n + a.1).0;
    SpecHead(plates, ans, b, n);
    DistinctTail(plates);
    if k == 0 {
      assert plates[0] in plates;
      PlaceLands(b, plates[0], a.0);
      SpecKeeps(rest, ans, b1, n + a.1, plates[0], a.0);
      LandsSame(plates[k], PlateEnds(plates, ans, n)[k], BatchSpec(plates, ans, b, n).0, plates[0], a.0, fin);
    } else {
      PlaceLeavesRest(plates, b, a.0);
      SpecPlacesEach(rest, ans, b1, n + a.1, k - 1);
      LandsSame(plates[k], PlateEnds(plates, ans, n)[k], BatchSpec(plates, ans, b, n).0, rest[k - 1], ends[k - 1], fin);
    }
  }

  /** A plate's requests as the clocked loop made them give its answer. */
  lemma ServedAnswer(c: Clock, e: Clock, res: PlateEnd, look: nat -> Lookup)
    requires Good(c) && Extends(c, e, look)
    requires |c.dispatched| < |e.dispatched| <= |c.dispatched| + MAX_RETRIES && |e.outcomes| == |e.dispatched|
    requires RateLimitedFrom(e.outcomes, |c.outcomes|, |e.outcomes| - 1)
    requires EndsWith(res, e.outcomes[|e.outcomes| - 1])
    requires res.GaveUp? ==> |e.dispatched| == |c.dispatched| + MAX_RETRIES
    ensures PlateAnswer(look, |c.dispatched|, 0) == (res, |e.dispatched| - |c.dispatched|)
  {
    var n := |c.dispatched|;
    var m := |e.dispatched| - n;
    assert |c.outcomes| == n;
    forall j | n <= j < n + m - 1 ensures look(j) == RateLimited {
      assert e.outcomes[j] == look(j);
    }
    assert e.outcomes[n + m - 1] == look(n + m - 1);
    PlateAnswerOf(look, n, 0, m, res);
  }

  /** `process_plate_batch`. Every plate is requested at least once (an
      unparseable plate too: it takes a slot of the limiter without reaching
      the network) and at most five times. */
  method ProcessPlateBatch(plates: seq<string>, start: int, reply: (string, nat) -> Http, latency: nat -> nat)
    returns (out: Buckets, clock: Clock)
    ensures Good(clock)
    ensures MinGapOK(clock.dispatched)
    ensures NoRateLimit(clock.outcomes) ==> WindowOK(clock.dispatched)
    ensures |plates| <= |clock.dispatched| <= MAX_RETRIES * |plates|
    ensures forall p :: Placed(p, out) <==> p in plates
    ensures WorkStatus.Distinct(plates) ==> forall p :: p in plates ==> OneBucket(p, out)
    ensures (out, |clock.dispatched|) == BatchSpec(plates, AnswerOf(AllLooks(reply)), Buckets([], map[], []), 0)
    ensures WorkStatus.Distinct(plates) ==>
              forall k :: 0 <= k < |plates| ==> Lands(plates[k], PlateEnds(plates, AnswerOf(AllLooks(reply)), 0)[k], out)
  {
    out, clock := BatchLoop(plates, start, AllLooks(reply), latency);
    SpecPlaces(plates, AnswerOf(AllLooks(reply)), Buckets([], map[], []), 0);
    if WorkStatus.Distinct(plates) {
      SpecOneBucket(plates, AnswerOf(AllLooks(reply)), Buckets([], map[], []), 0);
    }
    SpecPlacesAll(plates, AnswerOf(AllLooks(reply)));
  }

  /** The loop of `process_plate_batch` for any lookups. */
  method BatchLoop(plates: seq<string>, start: int, looks: string -> nat -> Lookup, latency: nat -> nat)
    returns (out: Buckets, clock: Clock)
    ensures Good(clock)
    ensures |plates| <= |clock.dispatched| <= MAX_RETRIES * |plates|
    ensures (out, |clock.dispatched|) == BatchSpec(plates, AnswerOf(looks), Buckets([], map[], []), 0)
  {
    out := Buckets([], map[], []);
    clock := Start(start);
    var k := 0;
    ghost var goal := Fold(plates, Take(AnswerOf(looks)), (out, 0));
    assert plates[0..] == plates;
    while k < |plates|
      invariant k <= |plates| && Good(clock)
      invariant k <= |clock.dispatched| <= MAX_RETRIES * k
      invariant Fold(plates[k..], Take(AnswerOf(looks)), (out, |clock.dispatched|)) == goal
    {
      var res, e;
      e, res := ServePlate(clock, looks(plates[k]), latency);
      FoldAdvance(plates, k, looks, out, |clock.dispatched|, res, |e.dispatched|, goal);
      out := Place(out, plates[k], res);
      clock := e;
      k := k + 1;
    }
    assert plates[..k] == plates;
    assert plates[k..] == [];
  }

  /** The batch places exactly the plates it is given, on top of what was
      placed before. */
  lemma {:induction false} SpecPlaces(plates: seq<string>, ans: (string, nat) -> (PlateEnd, nat), b: Buckets, n: nat)
    ensures forall p :: Placed(p, BatchSpec(plates, ans, b, n).0) <==> Placed(p, b) || p in plates
    decreases |plates|
  {
    if plates != [] {
      var a := ans(plates[0], n);
      var b1 := Place(b, plates[0], a.0);
      SpecHead(plates, ans, b, n);
      PlaceSorts(b, plates[0], a.0);
      SpecPlaces(plates[1..], ans, b1, n + a.1);
      forall p ensures p in plates <==> p == plates[0] || p in plates[1..] {
        assert plates == [plates[0]] + plates[1..];
      }
    }
  }

  /** Distinct plates none of which was placed before each land in one
      bucket, and what was placed in one bucket stays so. */
  lemma {:induction false} SpecOneBucket(plates: seq<string>, ans: (string, nat) -> (PlateEnd, nat), b: Buckets, n: nat)
    requires WorkStatus.Distinct(plates)
    requires forall p :: Placed(p, b) ==> p !in plates && OneBucket(p, b)
    ensures forall p :: Placed(p, BatchSpec(plates, ans, b, n).0) ==> OneBucket(p, BatchSpec(plates, ans, b, n).0)
    decreases |plates|
  {
    if plates != [] {
      var a := ans(plates[0], n);
      var b1 := Place(b, plates[0], a.0);
      SpecHead(plates, ans, b, n);
      DistinctTail(plates);
      PlaceSorts(b, plates[0], a.0);
      assert plates[0] in plates;
      forall p | Placed(p, b1) ensures p !in plates[1..] && OneBucket(p, b1) {
        if p != plates[0] {
          assert p !in plates;
        }
      }
      SpecOneBucket(plates[1..], ans, b1, n + a.1);
    }
  }

  lemma SpecPlacesAll(plates: seq<string>, ans: (string, nat) -> (PlateEnd, nat))
    ensures WorkStatus.Distinct(plates) ==>
              forall k :: 0 <= k < |plates| ==> Lands(plates[k], PlateEnds(plates, ans, 0)[k], BatchSpec(plates, ans, Buckets([], map[], []), 0).0)
  {
    if WorkStatus.Distinct(plates) {
      forall i | 0 <= i < |plates| ensures Lands(plates[i], PlateEnds(plates, ans, 0)[i], BatchSpec(plates, ans, Buckets([], map[], []), 0).0) {
        SpecPlacesEach(plates, ans, Buckets([], map[], []), 0, i);
      }
    }
  }
}
