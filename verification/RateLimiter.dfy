/** The per-IP request limit of the gateway (services/api-gateway/core/middleware.py): one fixed
    60 s window per public IP, in a process-wide dictionary. */
module RateLimiter {

  import opened Wrappers

  type Ip = string

  datatype Window = Window(start: real, count: nat)

  type Windows = map<Ip, Window>

  const WINDOW := 60.0
  const MAX_ENTRIES := 10000
  const MB := 1048576

  /** `ip` is absent for trusted callers, `declared` for a body without a numeric length. */
  datatype Request = Request(ip: Option<Ip>, path: string, declared: Option<nat>)

  datatype Verdict = Pass | TooLarge | TooMany

  // ---- One counted request ----

  /** The window that counts a request: the current one, or a new one after 60 s. */
  function Current(w: Windows, ip: Ip, now: real): Window {
    if ip in w && now - w[ip].start < WINDOW then w[ip] else Window(now, 0)
  }

  predicate OpensNext(w: Windows, ip: Ip, now: real) { ip in w && now - w[ip].start >= WINDOW }

  /** Only a caller that opens its next window cleans up the dictionary. */
  predicate Clears(w: Windows, ip: Ip, now: real) { OpensNext(w, ip, now) && |w| > MAX_ENTRIES }

  function Count(w: Windows, ip: Ip, now: real): Windows {
    var c := Current(w, ip, now);
    (if Clears(w, ip, now) then map[] else w)[ip := Window(c.start, c.count + 1)]
  }

  predicate Admits(w: Windows, ip: Ip, now: real, limit: nat) { Current(w, ip, now).count + 1 <= limit }

  class Middleware {
    var rateWindows: Windows

    constructor ()
      ensures rateWindows == map[]
    {
      rateWindows := map[];
    }

    /** `request_limits_middleware` */
    method RequestLimits(r: Request, now: real, maxMb: int, limit: int) returns (v: Verdict)
      modifies this
      ensures v == TooLarge <==>
                && r.ip.Some? && r.path != "/health"
                && maxMb > 0 && r.declared.Some? && r.declared.value > maxMb * 1048576
      ensures v == TooMany ==> limit > 0 && r.ip.Some?
      ensures r.ip.None? || r.path == "/health" || v == TooLarge || limit <= 0 ==>
              rateWindows == old(rateWindows) && v != TooMany
      ensures r.ip.Some? && r.path != "/health" && v != TooLarge && limit > 0 ==>
                rateWindows == Count(old(rateWindows), r.ip.value, now)
                && (v == Pass <==> Admits(old(rateWindows), r.ip.value, now, limit))
      // every request that gets there is counted, in the window of the last 60 s or in a new one
      ensures r.ip.Some? && r.path != "/health" && v != TooLarge && limit > 0 ==>
                && r.ip.value in rateWindows
                && rateWindows[r.ip.value]
                   == (if r.ip.value in old(rateWindows) && now - old(rateWindows)[r.ip.value].start < 60.0
                       then Window(old(rateWindows)[r.ip.value].start, old(rateWindows)[r.ip.value].count + 1)
                       else Window(now, 1))
                && (v == Pass <==> rateWindows[r.ip.value].count <= limit)
      // a rejected request stays in its window
      ensures v == TooMany && limit > 1 ==>
                r.ip.value in old(rateWindows) && rateWindows[r.ip.value].start == old(rateWindows)[r.ip.value].start
    {
      if r.ip.None? || r.path == "/health" { return Pass; }
      if maxMb > 0 && r.declared.Some? && r.declared.value > maxMb * MB { return TooLarge; }
      if limit > 0 {
        var ip := r.ip.value;
        var window := if ip in rateWindows then rateWindows[ip] else Window(now, 0);
        if now - window.start >= WINDOW {
          window := Window(now, 0);
          if |rateWindows| > MAX_ENTRIES { rateWindows := map[]; }
        }
        rateWindows := rateWindows[ip := Window(window.start, window.count + 1)];
        if window.count + 1 > limit { return TooMany; }
      }
      return Pass;
    }
  }

  // ---- Runs of counted requests ----

  datatype Hit = Hit(ip: Ip, at: real)

  function Run(w: Windows, trace: seq<Hit>): Windows
    decreases |trace|
  {
    if trace == [] then w else Run(Count(w, trace[0].ip, trace[0].at), trace[1..])
  }

  predicate Sorted(since: real, trace: seq<Hit>)
    decreases |trace|
  {
    trace == [] || (since <= trace[0].at && Sorted(trace[0].at, trace[1..]))
  }

  /** No request of the run empties the dictionary. */
  predicate NeverCleared(w: Windows, trace: seq<Hit>)
    decreases |trace|
  {
    trace == []
    || (!Clears(w, trace[0].ip, trace[0].at) && NeverCleared(Count(w, trace[0].ip, trace[0].at), trace[1..]))
  }

  /** How many requests of `ip` the run admits in the interval [from, from + 60). */
  function Admitted(w: Windows, trace: seq<Hit>, limit: nat, ip: Ip, from: real): nat
    decreases |trace|
  {
    if trace == [] then 0
    else
      var h := trace[0];
      (if h.ip == ip && from <= h.at < from + WINDOW && Admits(w, ip, h.at, limit) then 1 else 0)
      + Admitted(Count(w, h.ip, h.at), trace[1..], limit, ip, from)
  }

  function Left(limit: nat, count: nat): nat { if count <= limit then limit - count else 0 }

  /** What the rest of a run can still admit in the interval, given the window of the IP. */
  function Budget(w: Windows, limit: nat, ip: Ip, from: real): nat {
    if ip !in w || w[ip].start + WINDOW <= from then (if limit == 0 then 0 else 2 * limit - 1)
    else if w[ip].start >= from + WINDOW then 0
    else if w[ip].start >= from then Left(limit, w[ip].count)
    else Left(limit, w[ip].count) + limit
  }

  predicate Positive(w: Windows) { forall i :: i in w ==> w[i].count >= 1 }

  lemma {:induction false} AdmittedWithinBudget(w: Windows, since: real, trace: seq<Hit>, limit: nat, ip: Ip,
                                                from: real)
    requires Sorted(since, trace) && NeverCleared(w, trace) && Positive(w)
    requires ip in w ==> w[ip].start <= since
    ensures Admitted(w, trace, limit, ip, from) <= Budget(w, limit, ip, from)
    decreases |trace|
  {
    if trace != [] {
      var h := trace[0];
      AdmittedWithinBudget(Count(w, h.ip, h.at), h.at, trace[1..], limit, ip, from);
    }
  }

  /** The run empties the dictionary in [from, from + 60) for a caller other than `ip`. */
  predicate ClearedIn(w: Windows, trace: seq<Hit>, ip: Ip, from: real)
    decreases |trace|
  {
    trace != [] &&
    var h := trace[0];
    (h.ip != ip && from <= h.at < from + WINDOW && Clears(w, h.ip, h.at))
    || ClearedIn(Count(w, h.ip, h.at), trace[1..], ip, from)
  }

  predicate StartedWithin(w: Windows, first: real, last: real) { forall i :: i in w ==> first <= w[i].start <= last }

  /** One clean-up in 60 s is the most: it leaves young windows only, and none of them can run out
      before the 60 s are over. */
  lemma {:induction false} YoungIsNotCleared(w: Windows, since: real, trace: seq<Hit>, ip: Ip, from: real)
    requires Sorted(since, trace) && StartedWithin(w, from, since) && from <= since
    ensures !ClearedIn(w, trace, ip, from)
    decreases |trace|
  {
    if trace != [] {
      var h := trace[0];
      YoungIsNotCleared(Count(w, h.ip, h.at), h.at, trace[1..], ip, from);
    }
  }

  /** `Budget` once the interval has begun: a caller without a window gets one that outlasts it. */
  function BudgetInside(w: Windows, limit: nat, ip: Ip, from: real): nat {
    if ip !in w then limit else Budget(w, limit, ip, from)
  }

  lemma {:induction false} NoneAdmittedAfter(w: Windows, since: real, trace: seq<Hit>, limit: nat, ip: Ip, from: real)
    requires Sorted(since, trace) && since >= from + WINDOW
    ensures Admitted(w, trace, limit, ip, from) == 0
    decreases |trace|
  {
    if trace != [] { NoneAdmittedAfter(Count(w, trace[0].ip, trace[0].at), trace[0].at, trace[1..], limit, ip, from); }
  }

  /** What one request takes from the budget. */
  lemma StepInside(w: Windows, h: Hit, limit: nat, ip: Ip, from: real)
    requires from <= h.at < from + WINDOW && (ip in w ==> w[ip].start <= h.at) && Positive(w) && limit > 0
    ensures var one := if h.ip == ip && Admits(w, ip, h.at, limit) then 1 else 0;
            one + BudgetInside(Count(w, h.ip, h.at), limit, ip, from)
            <= BudgetInside(w, limit, ip, from) + if h.ip != ip && Clears(w, h.ip, h.at) then limit else 0
  {
    var u := Count(w, h.ip, h.at);
    if h.ip == ip {
      assert u[ip] == Window(Current(w, ip, h.at).start, Current(w, ip, h.at).count + 1);
    } else if !Clears(w, h.ip, h.at) {
      assert (ip in u <==> ip in w) && (ip in w ==> u[ip] == w[ip]);
    }
  }

  lemma {:induction false} AdmittedInside(w: Windows, first: real, since: real, trace: seq<Hit>, limit: nat, ip: Ip,
                                          from: real)
    requires Sorted(since, trace) && from <= since && StartedWithin(w, first, since) && Positive(w) && limit > 0
    ensures Admitted(w, trace, limit, ip, from)
            <= BudgetInside(w, limit, ip, from) + if ClearedIn(w, trace, ip, from) then limit else 0
    decreases |trace|
  {
    if trace != [] {
      var h := trace[0];
      if h.at >= from + WINDOW {
        NoneAdmittedAfter(w, h.at, trace, limit, ip, from);
      } else {
        var u := Count(w, h.ip, h.at);
        StepInside(w, h, limit, ip, from);
        AdmittedInside(u, if first <= h.at then first else h.at, h.at, trace[1..], limit, ip, from);
        if Clears(w, h.ip, h.at) { YoungIsNotCleared(u, h.at, trace[1..], ip, from); }
      }
    }
  }

  lemma {:induction false} AdmittedFrom(w: Windows, first: real, since: real, trace: seq<Hit>, limit: nat, ip: Ip,
                                        from: real)
    requires Sorted(since, trace) && StartedWithin(w, first, since) && Positive(w) && limit > 0
    ensures Admitted(w, trace, limit, ip, from) <= 2 * limit - 1 + if ClearedIn(w, trace, ip, from) then limit else 0
    decreases |trace|
  {
    if trace != [] {
      var h := trace[0];
      if h.at < from {
        AdmittedFrom(Count(w, h.ip, h.at), if first <= h.at then first else h.at, h.at, trace[1..], limit, ip, from);
      } else {
        AdmittedInside(w, first, h.at, trace, limit, ip, from);
      }
    }
  }

  /** Any interval of 60 s admits at most 2·limit - 1 requests of one IP, however the windows fall
      in it and whatever other callers do, and one limit more only if another caller empties the
      dictionary in it. */
  lemma AtMostThreeLimits(since: real, trace: seq<Hit>, limit: nat, ip: Ip, from: real)
    requires Sorted(since, trace) && limit > 0
    ensures Admitted(map[], trace, limit, ip, from)
            <= (if ClearedIn(map[], trace, ip, from) then 3 else 2) * limit - 1
  {
    AdmittedFrom(map[], since, since, trace, limit, ip, from);
  }

  /** Any interval of 60 s admits at most 2·limit - 1 requests of one IP, however the windows fall
      in it and whatever other callers do, while the dictionary is not cleared. */
  lemma AtMostTwoLimits(since: real, trace: seq<Hit>, limit: nat, ip: Ip, from: real)
    requires Sorted(since, trace) && NeverCleared(map[], trace) && limit > 0
    ensures Admitted(map[], trace, limit, ip, from) <= 2 * limit - 1
  {
    AdmittedWithinBudget(map[], since, trace, limit, ip, from);
  }

  /** The 60 s from the start of a window admit at most `limit`. */
  lemma AtMostLimitPerWindow(w: Windows, since: real, first: Hit, trace: seq<Hit>, limit: nat)
    requires Sorted(since, [first] + trace) && NeverCleared(w, [first] + trace) && Positive(w)
    requires first.ip in w ==> w[first.ip].start <= since && OpensNext(w, first.ip, first.at)
    ensures Admitted(w, [first] + trace, limit, first.ip, first.at) <= limit
  {
    assert ([first] + trace)[1..] == trace;
    AdmittedWithinBudget(Count(w, first.ip, first.at), first.at, trace, limit, first.ip, first.at);
  }

  // ---- The bound is reached ----

  function Repeat(n: nat, h: Hit): seq<Hit> { if n == 0 then [] else [h] + Repeat(n - 1, h) }

  lemma {:induction false} RunAppend(w: Windows, a: seq<Hit>, b: seq<Hit>)
    ensures Run(w, a + b) == Run(Run(w, a), b)
    ensures NeverCleared(w, a + b) <==> NeverCleared(w, a) && NeverCleared(Run(w, a), b)
    decreases |a|
  {
    if a == [] {
      assert a + b == b;
    } else {
      assert (a + b)[1..] == a[1..] + b;
      RunAppend(Count(w, a[0].ip, a[0].at), a[1..], b);
    }
  }

  lemma {:induction false} AdmittedAppend(w: Windows, a: seq<Hit>, b: seq<Hit>, limit: nat, ip: Ip, from: real)
    ensures Admitted(w, a + b, limit, ip, from)
         == Admitted(w, a, limit, ip, from) + Admitted(Run(w, a), b, limit, ip, from)
    decreases |a|
  {
    if a == [] {
      assert a + b == b;
    } else {
      assert (a + b)[1..] == a[1..] + b;
      AdmittedAppend(Count(w, a[0].ip, a[0].at), a[1..], b, limit, ip, from);
    }
  }

  /** A burst inside the current window is admitted up to what the window has left. */
  lemma {:induction false} BurstFits(w: Windows, n: nat, h: Hit, limit: nat, from: real)
    requires h.ip in w && h.at - w[h.ip].start < WINDOW && w[h.ip].count + n <= limit && from <= h.at < from + WINDOW
    ensures Admitted(w, Repeat(n, h), limit, h.ip, from) == n
    ensures Run(w, Repeat(n, h)) == w[h.ip := Window(w[h.ip].start, w[h.ip].count + n)]
    decreases n
  {
    if n > 0 {
      var u := Count(w, h.ip, h.at);
      assert Repeat(n, h)[1..] == Repeat(n - 1, h);
      BurstFits(u, n - 1, h, limit, from);
      assert u[h.ip := Window(w[h.ip].start, w[h.ip].count + n)] == w[h.ip := Window(w[h.ip].start, w[h.ip].count + n)];
    } else {
      assert w[h.ip := Window(w[h.ip].start, w[h.ip].count + 0)] == w;
    }
  }

  /** One request at 0 s, the rest of the window at 59 s, a whole window at 60 s. */
  function WorstTrace(limit: nat, ip: Ip): seq<Hit>
    requires limit > 0
  {
    [Hit(ip, 0.0)] + (Repeat(limit - 1, Hit(ip, 59.0)) + Repeat(limit, Hit(ip, 60.0)))
  }

  /** A caller that starts a window at 60 s, without a clean-up, fills it. */
  lemma WindowFills(w: Windows, limit: nat, ip: Ip)
    requires limit > 0 && Current(w, ip, 60.0) == Window(60.0, 0) && !Clears(w, ip, 60.0)
    ensures Admitted(w, Repeat(limit, Hit(ip, 60.0)), limit, ip, 59.0) == limit
    ensures Run(w, Repeat(limit, Hit(ip, 60.0))) == w[ip := Window(60.0, limit)]
  {
    var h := Hit(ip, 60.0);
    var u := w[ip := Window(60.0, 1)];
    assert Count(w, ip, 60.0) == u;
    assert Repeat(limit, h)[1..] == Repeat(limit - 1, h);
    BurstFits(u, limit - 1, h, limit, 59.0);
    assert u[ip := Window(60.0, limit)] == w[ip := Window(60.0, limit)];
  }

  lemma FirstRequest(w: Windows, limit: nat, ip: Ip)
    requires ip !in w
    ensures Run(w, [Hit(ip, 0.0)]) == w[ip := Window(0.0, 1)] && Admitted(w, [Hit(ip, 0.0)], limit, ip, 59.0) == 0
  {
    var h := [Hit(ip, 0.0)];
    assert h[1..] == [];
    assert Run(w, h) == Run(Count(w, ip, 0.0), []);
    assert Admitted(w, h, limit, ip, 59.0) == Admitted(Count(w, ip, 0.0), [], limit, ip, 59.0);
  }

  lemma FirstBurst(w: Windows, limit: nat, ip: Ip)
    requires limit > 0
    ensures var w1, burst := w[ip := Window(0.0, 1)], Repeat(limit - 1, Hit(ip, 59.0));
            Run(w1, burst) == w[ip := Window(0.0, limit)] && Admitted(w1, burst, limit, ip, 59.0) == limit - 1
  {
    var w1 := w[ip := Window(0.0, 1)];
    BurstFits(w1, limit - 1, Hit(ip, 59.0), limit, 59.0);
    assert w1[ip := Window(0.0, limit)] == w[ip := Window(0.0, limit)];
  }

  lemma SecondWindow(w: Windows, limit: nat, ip: Ip)
    requires limit > 0 && ip !in w && |w| < MAX_ENTRIES
    ensures var w2, second := w[ip := Window(0.0, limit)], Repeat(limit, Hit(ip, 60.0));
            Run(w2, second) == w[ip := Window(60.0, limit)] && Admitted(w2, second, limit, ip, 59.0) == limit
  {
    var w2 := w[ip := Window(0.0, limit)];
    assert |w2| == |w| + 1;
    WindowFills(w2, limit, ip);
    assert w2[ip := Window(60.0, limit)] == w[ip := Window(60.0, limit)];
  }

  lemma Compose(w: Windows, w1: Windows, w2: Windows, a: seq<Hit>, b: seq<Hit>, c: seq<Hit>, limit: nat, ip: Ip)
    requires Run(w, a) == w1 && Run(w1, b) == w2
    ensures Run(w, a + (b + c)) == Run(w2, c)
    ensures Admitted(w, a + (b + c), limit, ip, 59.0)
         == Admitted(w, a, limit, ip, 59.0) + Admitted(w1, b, limit, ip, 59.0) + Admitted(w2, c, limit, ip, 59.0)
  {
    RunAppend(w, a, b + c);
    RunAppend(w1, b, c);
    AdmittedAppend(w, a, b + c, limit, ip, 59.0);
    AdmittedAppend(w1, b, c, limit, ip, 59.0);
  }

  /** The trace does the same among other callers, as long as there is room for one more. */
  lemma WorstFrom(w: Windows, limit: nat, ip: Ip)
    requires limit > 0 && ip !in w && |w| < MAX_ENTRIES
    ensures Admitted(w, WorstTrace(limit, ip), limit, ip, 59.0) == 2 * limit - 1
    ensures Run(w, WorstTrace(limit, ip)) == w[ip := Window(60.0, limit)]
  {
    FirstRequest(w, limit, ip);
    FirstBurst(w, limit, ip);
    SecondWindow(w, limit, ip);
    Compose(w, w[ip := Window(0.0, 1)], w[ip := Window(0.0, limit)],
            [Hit(ip, 0.0)], Repeat(limit - 1, Hit(ip, 59.0)), Repeat(limit, Hit(ip, 60.0)), limit, ip);
  }

  /** 2·limit - 1 is exact: for every limit there is a run that admits that many within 60 s. */
  lemma TwoLimitsReached(limit: nat, ip: Ip)
    requires limit > 0
    ensures Admitted(map[], WorstTrace(limit, ip), limit, ip, 59.0) == 2 * limit - 1
  {
    WorstFrom(map[], limit, ip);
  }

  // ---- The bound with a clean-up in the interval ----

  /** Callers other than `ip`, no two alike. */
  function Other(ip: Ip, i: nat): Ip { seq(|ip| + 1 + i, _ => 'x') }

  function Crowd(ip: Ip, n: nat): seq<Hit> { if n == 0 then [] else Crowd(ip, n - 1) + [Hit(Other(ip, n - 1), 0.0)] }

  function CrowdWindows(ip: Ip, n: nat): Windows {
    if n == 0 then map[] else CrowdWindows(ip, n - 1)[Other(ip, n - 1) := Window(0.0, 1)]
  }

  lemma {:induction false} CrowdIs(ip: Ip, n: nat)
    ensures |CrowdWindows(ip, n)| == n
    ensures forall i: nat :: i < n ==>
              Other(ip, i) in CrowdWindows(ip, n) && CrowdWindows(ip, n)[Other(ip, i)] == Window(0.0, 1)
    ensures forall k :: k in CrowdWindows(ip, n) ==> |ip| < |k| <= |ip| + n
  {
    if n > 0 { CrowdIs(ip, n - 1); }
  }

  lemma OneCaller(w: Windows, other: Ip, ip: Ip, limit: nat)
    requires other !in w && other != ip
    ensures Run(w, [Hit(other, 0.0)]) == w[other := Window(0.0, 1)]
    ensures Admitted(w, [Hit(other, 0.0)], limit, ip, 59.0) == 0
  {
    var h := [Hit(other, 0.0)];
    assert h[1..] == [];
    assert Run(w, h) == Run(Count(w, other, 0.0), []);
    assert Admitted(w, h, limit, ip, 59.0) == Admitted(Count(w, other, 0.0), [], limit, ip, 59.0);
  }

  lemma {:induction false} CrowdCame(ip: Ip, n: nat, limit: nat)
    ensures Run(map[], Crowd(ip, n)) == CrowdWindows(ip, n)
    ensures Admitted(map[], Crowd(ip, n), limit, ip, 59.0) == 0
  {
    if n > 0 {
      var other := Other(ip, n - 1);
      CrowdCame(ip, n - 1, limit);
      CrowdIs(ip, n - 1);
      assert |other| == |ip| + n;
      OneCaller(CrowdWindows(ip, n - 1), other, ip, limit);
      RunAppend(map[], Crowd(ip, n - 1), [Hit(other, 0.0)]);
      AdmittedAppend(map[], Crowd(ip, n - 1), [Hit(other, 0.0)], limit, ip, 59.0);
    }
  }

  /** Two more callers: a new one, with whom there are too many, and one that returns. */
  function Sweep(ip: Ip): seq<Hit> { [Hit(Other(ip, MAX_ENTRIES - 1), 60.0), Hit(Other(ip, 0), 60.0)] }

  function SweptTrace(limit: nat, ip: Ip): seq<Hit>
    requires limit > 0
  {
    Crowd(ip, MAX_ENTRIES - 1) + (WorstTrace(limit, ip) + (Sweep(ip) + Repeat(limit, Hit(ip, 60.0))))
  }

  lemma SweepClears(w: Windows, limit: nat, ip: Ip)
    requires |w| == MAX_ENTRIES && Other(ip, MAX_ENTRIES - 1) !in w
    requires Other(ip, 0) in w && w[Other(ip, 0)].start == 0.0
    ensures Run(w, Sweep(ip)) == map[Other(ip, 0) := Window(60.0, 1)]
    ensures Admitted(w, Sweep(ip), limit, ip, 59.0) == 0
  {
    var first, second := Other(ip, MAX_ENTRIES - 1), Other(ip, 0);
    var u := Count(w, first, 60.0);
    assert |first| == |ip| + MAX_ENTRIES && |second| == |ip| + 1;
    assert |u| == MAX_ENTRIES + 1 && Clears(u, second, 60.0);
    var last := [Hit(second, 60.0)];
    assert Sweep(ip)[1..] == last && last[1..] == [];
    assert Run(w, Sweep(ip)) == Run(u, last) == Run(Count(u, second, 60.0), []);
    assert Admitted(u, last, limit, ip, 59.0) == 0;
  }

  /** 3·limit - 1 is exact as well: the dictionary is emptied behind the second window. */
  lemma ThreeLimitsReached(limit: nat, ip: Ip)
    requires limit > 0
    ensures Admitted(map[], SweptTrace(limit, ip), limit, ip, 59.0) == 3 * limit - 1
  {
    var crowd, rest := Crowd(ip, MAX_ENTRIES - 1), Sweep(ip) + Repeat(limit, Hit(ip, 60.0));
    var w0 := CrowdWindows(ip, MAX_ENTRIES - 1);
    CrowdIs(ip, MAX_ENTRIES - 1);
    CrowdCame(ip, MAX_ENTRIES - 1, limit);
    AdmittedAppend(map[], crowd, WorstTrace(limit, ip) + rest, limit, ip, 59.0);
    WorstFrom(w0, limit, ip);
    AdmittedAppend(w0, WorstTrace(limit, ip), rest, limit, ip, 59.0);
    var w1 := Run(w0, WorstTrace(limit, ip));
    assert |Other(ip, MAX_ENTRIES - 1)| == |ip| + MAX_ENTRIES;
    SweepClears(w1, limit, ip);
    AdmittedAppend(w1, Sweep(ip), Repeat(limit, Hit(ip, 60.0)), limit, ip, 59.0);
    WindowFills(Run(w1, Sweep(ip)), limit, ip);
  }

  // ---- The dictionary ----

  function Ips(trace: seq<Hit>): set<Ip> { set h | h in trace :: h.ip }

  /** With at most 10,000 callers in sight the dictionary is never cleared. */
  lemma {:induction false} FewCallersNeverClear(w: Windows, trace: seq<Hit>)
    requires |w.Keys + Ips(trace)| <= 10000
    ensures NeverCleared(w, trace)
    decreases |trace|
  {
    if trace != [] {
      assert w.Keys <= w.Keys + Ips(trace);
      Smaller(w.Keys, w.Keys + Ips(trace));
      assert |w| == |w.Keys|;
      var u := Count(w, trace[0].ip, trace[0].at);
      assert trace[0].ip in Ips(trace);
      assert u.Keys + Ips(trace[1..]) <= w.Keys + Ips(trace);
      Smaller(u.Keys + Ips(trace[1..]), w.Keys + Ips(trace));
      FewCallersNeverClear(u, trace[1..]);
    }
  }

  lemma Smaller(a: set<Ip>, b: set<Ip>)
    requires a <= b
    ensures |a| <= |b|
  {
    assert b == a + (b - a);
  }

  /** Until the first clean-up every caller ever seen has an entry. */
  lemma {:induction false} EntriesAreCallers(w: Windows, trace: seq<Hit>)
    requires NeverCleared(w, trace)
    ensures Run(w, trace).Keys == w.Keys + Ips(trace)
    decreases |trace|
  {
    if trace != [] {
      var h := trace[0];
      EntriesAreCallers(Count(w, h.ip, h.at), trace[1..]);
      assert trace == [h] + trace[1..];
      assert Ips(trace) == {h.ip} + Ips(trace[1..]);
    }
  }

  /** Where a run that is cleared is cleared first. */
  lemma {:induction false} FirstClear(w: Windows, trace: seq<Hit>) returns (j: nat)
    requires !NeverCleared(w, trace)
    ensures j < |trace| && NeverCleared(w, trace[..j]) && Clears(Run(w, trace[..j]), trace[j].ip, trace[j].at)
    decreases |trace|
  {
    var h := trace[0];
    if Clears(w, h.ip, h.at) {
      j := 0;
    } else {
      var k := FirstClear(Count(w, h.ip, h.at), trace[1..]);
      j := k + 1;
      assert trace[..j][1..] == trace[1..][..k];
    }
  }

  /** More than 10,000 callers have come before the request `trace[j]`, and its caller had a window
      that has run out. */
  predicate ReturnsToCrowd(trace: seq<Hit>, j: nat) {
    j < |trace| && |Ips(trace[..j])| > 10000 && OpensNext(Run(map[], trace[..j]), trace[j].ip, trace[j].at)
  }

  /** Exactly when the clean-up ever runs: some caller whose window has run out comes back after
      more than 10,000 callers.  Until then every caller has an entry. */
  lemma ClearedIffReturning(trace: seq<Hit>)
    ensures !NeverCleared(map[], trace) <==> exists j: nat :: ReturnsToCrowd(trace, j)
    ensures NeverCleared(map[], trace) ==> |Run(map[], trace)| == |Ips(trace)|
  {
    if NeverCleared(map[], trace) {
      EntriesAreCallers(map[], trace);
      assert |Run(map[], trace)| == |Run(map[], trace).Keys|;
      forall j: nat ensures !ReturnsToCrowd(trace, j) {
        if j < |trace| { UnclearedAt(trace, j); }
      }
    } else {
      var j := FirstClear(map[], trace);
      EntriesAreCallers(map[], trace[..j]);
      assert |Run(map[], trace[..j])| == |Run(map[], trace[..j]).Keys|;
      assert ReturnsToCrowd(trace, j);
    }
  }

  lemma UnclearedAt(trace: seq<Hit>, j: nat)
    requires NeverCleared(map[], trace) && j < |trace|
    ensures !ReturnsToCrowd(trace, j)
  {
    var w := Run(map[], trace[..j]);
    assert trace == trace[..j] + trace[j..];
    RunAppend(map[], trace[..j], trace[j..]);
    assert !Clears(w, trace[j].ip, trace[j].at);
    EntriesAreCallers(map[], trace[..j]);
    assert |w| == |w.Keys|;
  }

  /** The clean-up does not bound the memory of a scan: callers that come once each never trigger
      it, and every one of them keeps an entry. */
  lemma {:induction false} SpreadScanIsUnbounded(w: Windows, trace: seq<Hit>)
    requires forall i, j :: 0 <= i < j < |trace| ==> trace[i].ip != trace[j].ip
    requires forall h :: h in trace ==> h.ip !in w
    ensures NeverCleared(w, trace) && |Run(w, trace)| == |w| + |trace|
    decreases |trace|
  {
    if trace != [] {
      var u := Count(w, trace[0].ip, trace[0].at);
      assert u.Keys == w.Keys + {trace[0].ip} && trace[0] in trace;
      forall h | h in trace[1..] ensures h.ip !in u {
        var k :| 0 <= k < |trace[1..]| && trace[1..][k] == h;
        assert trace[k + 1] == h;
      }
      SpreadScanIsUnbounded(u, trace[1..]);
    }
  }
}
