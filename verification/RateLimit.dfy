/**
 * The sliding-window limiter of the auth endpoints (internal/middleware/ratelimit.go,
 * memoryRateLimitStore).
 *
 * The store keeps, per key, only the admissions it still needs: every call prunes its own list and a
 * background cleanup prunes them all.  The specification decides from the full history of admissions.
 */
module RateLimit {

  /** Times and durations are in nanoseconds; the cleanup drops admissions of this age. */
  const CLEANUP_AGE: int := 120_000_000_000

  datatype Decision = Admitted | Rejected(retryAfter: int)

  predicate Sorted(h: seq<int>) {
    |h| <= 1 || (Sorted(h[..|h| - 1]) && h[|h| - 2] <= h[|h| - 1])
  }

  /** The last time of a sorted history is no later than `now`. */
  predicate UpTo(h: seq<int>, now: int) {
    h == [] || h[|h| - 1] <= now
  }

  lemma {:induction false} SortedAt(h: seq<int>, i: nat, j: nat)
    requires Sorted(h) && i <= j < |h|
    ensures h[i] <= h[j]
  {
    if i < j {
      if j < |h| - 1 { SortedAt(h[..|h| - 1], i, j); } else { SortedAt(h[..|h| - 1], i, j - 1); }
    }
  }

  /** The times after the cutoff, in order. */
  function Recent(h: seq<int>, cutoff: int): (r: seq<int>) {
    if h == [] then []
    else Recent(h[..|h| - 1], cutoff) + if h[|h| - 1] > cutoff then [h[|h| - 1]] else []
  }

  /** The decision on the full history of admissions of a key. */
  function Decide(h: seq<int>, limit: nat, window: int, now: int): (d: Decision)
    requires limit >= 1
  {
    Verdict(Recent(h, now - window), limit, window, now)
  }

  /** The decision on the admissions of the last window. */
  function Verdict(recent: seq<int>, limit: nat, window: int, now: int): (d: Decision)
    requires limit >= 1
  {
    if |recent| >= limit then
      var wait := window - (now - recent[0]);
      Rejected(if wait < 0 then 0 else wait)
    else Admitted
  }

  // ----- pruning -----

  lemma {:induction false} RecentAppend(a: seq<int>, b: seq<int>, cutoff: int)
    ensures Recent(a + b, cutoff) == Recent(a, cutoff) + Recent(b, cutoff)
  {
    if b == [] {
      assert a + b == a;
    } else {
      assert (a + b)[..|a + b| - 1] == a + b[..|b| - 1];
      RecentAppend(a, b[..|b| - 1], cutoff);
    }
  }

  lemma {:induction false} RecentNone(h: seq<int>, cutoff: int)
    requires forall i :: 0 <= i < |h| ==> h[i] <= cutoff
    ensures Recent(h, cutoff) == []
  {
    if h != [] { RecentNone(h[..|h| - 1], cutoff); }
  }

  lemma {:induction false} RecentAll(h: seq<int>, cutoff: int)
    requires forall i :: 0 <= i < |h| ==> h[i] > cutoff
    ensures Recent(h, cutoff) == h
  {
    if h != [] { RecentAll(h[..|h| - 1], cutoff); }
  }

  /** `k` splits the history at the cutoff. */
  ghost predicate CutsAt(h: seq<int>, cutoff: int, k: nat) {
    && k <= |h|
    && (forall i :: 0 <= i < k ==> h[i] <= cutoff)
    && (forall i :: k <= i < |h| ==> h[i] > cutoff)
  }

  lemma RecentIsSuffix(h: seq<int>, cutoff: int, k: nat)
    requires CutsAt(h, cutoff, k)
    ensures Recent(h, cutoff) == h[k..]
  {
    assert h == h[..k] + h[k..];
    RecentAppend(h[..k], h[k..], cutoff);
    RecentNone(h[..k], cutoff);
    RecentAll(h[k..], cutoff);
  }

  /** In a sorted history the recent times are a suffix. */
  lemma CutPoint(h: seq<int>, cutoff: int) returns (k: nat)
    requires Sorted(h)
    ensures CutsAt(h, cutoff, k) && Recent(h, cutoff) == h[k..]
  {
    k := 0;
    while k < |h| && h[k] <= cutoff
      invariant k <= |h| && forall i :: 0 <= i < k ==> h[i] <= cutoff
    {
      k := k + 1;
    }
    forall i | k <= i < |h| ensures h[i] > cutoff { SortedAt(h, k, i); }
    RecentIsSuffix(h, cutoff, k);
  }

  lemma RecentShape(h: seq<int>, cutoff: int) returns (k: nat)
    requires Sorted(h)
    ensures CutsAt(h, cutoff, k) && |Recent(h, cutoff)| == |h| - k
    ensures k < |h| ==> Recent(h, cutoff)[0] == h[k]
  {
    k := CutPoint(h, cutoff);
  }

  /** The decision read off the cut: reject when `limit` or more admissions are recent. */
  lemma DecideAtCut(h: seq<int>, limit: nat, window: int, now: int) returns (k: nat)
    requires limit >= 1 && Sorted(h)
    ensures CutsAt(h, now - window, k)
    ensures Decide(h, limit, window, now) ==
      if |h| - k >= limit then Rejected(h[k] + window - now) else Admitted
  {
    k := RecentShape(h, now - window);
  }

  // ----- the limit holds over every window -----

  /** Every admission comes at least a window after the one `limit` places before it. */
  predicate Spaced(h: seq<int>, limit: nat, window: int) {
    h == [] ||
    (Spaced(h[..|h| - 1], limit, window) && (|h| > limit ==> h[|h| - 1] - h[|h| - 1 - limit] >= window))
  }

  lemma {:induction false} SpacedAt(h: seq<int>, limit: nat, window: int, i: nat, j: nat)
    requires Sorted(h) && Spaced(h, limit, window) && i + limit <= j < |h|
    ensures h[j] - h[i] >= window
  {
    if j < |h| - 1 {
      SpacedAt(h[..|h| - 1], limit, window, i, j);
    } else {
      SortedAt(h, i, j - limit);
    }
  }

  lemma AdmissionKeepsSpacing(h: seq<int>, limit: nat, window: int, now: int)
    requires limit >= 1 && Sorted(h) && UpTo(h, now) && Spaced(h, limit, window)
    requires Decide(h, limit, window, now) == Admitted
    ensures Sorted(h + [now]) && Spaced(h + [now], limit, window)
  {
    var k := DecideAtCut(h, limit, window, now);
    assert (h + [now])[..|h|] == h;
    assert |h| >= limit ==> |h| - limit < k;
  }

  function CountIn(h: seq<int>, from: int, until: int): nat {
    if h == [] then 0
    else CountIn(h[..|h| - 1], from, until) + if from <= h[|h| - 1] < until then 1 else 0
  }

  lemma {:induction false} CountInAppend(a: seq<int>, b: seq<int>, from: int, until: int)
    ensures CountIn(a + b, from, until) == CountIn(a, from, until) + CountIn(b, from, until)
    ensures CountIn(b, from, until) <= |b|
    ensures (forall i :: 0 <= i < |a| ==> a[i] < from) ==> CountIn(a, from, until) == 0
  {
    if b == [] {
      assert a + b == a;
      if a != [] { CountInAppend(a[..|a| - 1], [], from, until); }
    } else {
      assert (a + b)[..|a + b| - 1] == a + b[..|b| - 1];
      CountInAppend(a, b[..|b| - 1], from, until);
    }
  }

  lemma {:induction false} RecentCounted(h: seq<int>, cutoff: int, now: int)
    requires forall i :: 0 <= i < |h| ==> h[i] <= now
    ensures |Recent(h, cutoff)| == CountIn(h, cutoff + 1, now + 1)
  {
    if h != [] { RecentCounted(h[..|h| - 1], cutoff, now); }
  }

  /**
   * A call is admitted exactly when fewer than `limit` admissions fall in the window that ends now; else it is
   * told to wait until the oldest of them leaves the window.
   */
  lemma DecideIff(h: seq<int>, limit: nat, window: int, now: int)
    requires limit >= 1 && Sorted(h) && UpTo(h, now)
    ensures Decide(h, limit, window, now) == Admitted <==> CountIn(h, now - window + 1, now + 1) < limit
    ensures Decide(h, limit, window, now).Rejected? ==>
      exists k: nat ::
        CutsAt(h, now - window, k) && k < |h| && Decide(h, limit, window, now).retryAfter == h[k] + window - now
  {
    forall i | 0 <= i < |h| ensures h[i] <= now { SortedAt(h, i, |h| - 1); }
    RecentCounted(h, now - window, now);
    var k := DecideAtCut(h, limit, window, now);
  }

  /** No interval of window length ever contains more than `limit` admissions. */
  lemma {:induction false} NoBurst(h: seq<int>, limit: nat, window: int, from: int)
    requires limit >= 1 && Sorted(h) && Spaced(h, limit, window)
    ensures CountIn(h, from, from + window) <= limit
  {
    if |h| > 0 && from <= h[|h| - 1] < from + window {
      var k := if |h| < limit then 0 else |h| - limit;
      assert h == h[..k] + h[k..];
      forall i | 0 <= i < k ensures h[..k][i] < from {
        SpacedAt(h, limit, window, i, |h| - 1);
      }
      CountInAppend(h[..k], h[k..], from, from + window);
    } else if |h| > 0 {
      NoBurst(h[..|h| - 1], limit, window, from);
    }
  }

  /** After a rejection at `t` with retry-after `r`, calls are rejected before t + r and admitted from then on. */
  lemma RetryAfterExact(h: seq<int>, limit: nat, window: int, t: int, r: int, now: int)
    requires limit >= 1 && Sorted(h) && UpTo(h, t) && Spaced(h, limit, window)
    requires Decide(h, limit, window, t) == Rejected(r) && t <= now
    ensures r > 0
    ensures Decide(h, limit, window, now).Rejected? <==> now < t + r
  {
    var k := DecideAtCut(h, limit, window, t);
    var k' := DecideAtCut(h, limit, window, now);
    if |h| > limit {
      SpacedAt(h, limit, window, |h| - 1 - limit, |h| - 1);
      assert |h| - 1 - limit < k;
    }
  }

  // ----- the background cleanup -----

  /** Pruning by age first changes nothing later when the age is at least the window. */
  lemma PruneInvisible(h: seq<int>, cutoff: int, later: int)
    requires Sorted(h) && cutoff <= later
    ensures Recent(Recent(h, cutoff), later) == Recent(h, later)
  {
    var k := CutPoint(h, cutoff);
    assert h == h[..k] + h[k..];
    RecentAppend(h[..k], h[k..], later);
    RecentNone(h[..k], later);
  }

  /** A cleanup at `t` does not change the decision at `now`. */
  ghost predicate SameDecision(h: seq<int>, limit: nat, window: int, t: int, now: int) {
    limit >= 1 && Sorted(h) && UpTo(h, t) && t <= now ==>
      Decide(Recent(h, t - CLEANUP_AGE), limit, window, now) == Decide(h, limit, window, now)
  }

  lemma ForgottenAdmission(window: int)
    requires window > CLEANUP_AGE
    ensures !SameDecision([0], 1, window, CLEANUP_AGE, CLEANUP_AGE)
  {
    RecentNone([0], 0);
    RecentAll([0], CLEANUP_AGE - window);
  }

  /** The cleanup never changes a later decision exactly when the window is at most two minutes. */
  lemma CleanupInvisibleIff(window: int)
    ensures (forall h, limit, t, now :: SameDecision(h, limit, window, t, now)) <==> window <= 120_000_000_000
  {
    if window <= CLEANUP_AGE {
      forall h, limit, t, now ensures SameDecision(h, limit, window, t, now) {
        if limit >= 1 && Sorted(h) && UpTo(h, t) && t <= now {
          PruneInvisible(h, t - CLEANUP_AGE, now - window);
        }
      }
    } else {
      ForgottenAdmission(window);
    }
  }

  /** `kept` is the history without some of its first admissions, all of them no later than `bound`. */
  ghost predicate Keeps(h: seq<int>, kept: seq<int>, bound: int) {
    kept == h || (h != [] && h[0] <= bound && Keeps(h[1..], kept, bound))
  }

  lemma {:induction false} KeepsLater(h: seq<int>, kept: seq<int>, bound: int, later: int)
    requires Keeps(h, kept, bound) && bound <= later
    ensures Keeps(h, kept, later)
  {
    if kept != h { KeepsLater(h[1..], kept, bound, later); }
  }

  lemma {:induction false} KeepsAppend(h: seq<int>, kept: seq<int>, bound: int, x: int)
    requires Keeps(h, kept, bound)
    ensures Keeps(h + [x], kept + [x], bound)
  {
    if kept != h {
      KeepsAppend(h[1..], kept, bound, x);
      assert (h + [x])[1..] == h[1..] + [x];
    }
  }

  lemma RecentFirst(h: seq<int>, cutoff: int)
    requires h != []
    ensures Recent(h, cutoff) == (if h[0] > cutoff then [h[0]] else []) + Recent(h[1..], cutoff)
  {
    assert h == [h[0]] + h[1..];
    RecentAppend([h[0]], h[1..], cutoff);
  }

  lemma {:induction false} TailSorted(h: seq<int>)
    requires Sorted(h) && h != []
    ensures Sorted(h[1..])
  {
    if |h| > 1 {
      assert h[1..][..|h| - 2] == h[..|h| - 1][1..];
      TailSorted(h[..|h| - 1]);
    }
  }

  /** The kept admissions decide as the history does. */
  lemma {:induction false} KeptDecides(h: seq<int>, kept: seq<int>, cutoff: int)
    requires Keeps(h, kept, cutoff)
    ensures Recent(kept, cutoff) == Recent(h, cutoff)
  {
    if kept != h {
      KeptDecides(h[1..], kept, cutoff);
      RecentFirst(h, cutoff);
    }
  }

  /** Pruning a sorted list drops nothing but its first, old entries. */
  lemma {:induction false} RecentKeeps(h: seq<int>, cutoff: int)
    requires Sorted(h)
    ensures Keeps(h, Recent(h, cutoff), cutoff)
  {
    if h != [] {
      if h[0] > cutoff {
        forall i | 0 <= i < |h| ensures h[i] > cutoff { SortedAt(h, 0, i); }
        RecentAll(h, cutoff);
      } else {
        TailSorted(h);
        RecentKeeps(h[1..], cutoff);
        RecentFirst(h, cutoff);
        assert Recent(h, cutoff) == Recent(h[1..], cutoff);
      }
    }
  }

  /** Pruning what is kept, too, only drops admissions no later than the bound. */
  lemma {:induction false} PruneKeeps(h: seq<int>, kept: seq<int>, bound: int, cutoff: int)
    requires Sorted(h) && Keeps(h, kept, bound) && cutoff <= bound
    ensures Keeps(h, Recent(kept, cutoff), bound)
  {
    if kept == h {
      RecentKeeps(h, cutoff);
      KeepsLater(h, Recent(h, cutoff), cutoff, bound);
    } else {
      TailSorted(h);
      PruneKeeps(h[1..], kept, bound, cutoff);
    }
  }

  // ----- one key of the store -----

  /** A key's history is sorted and spaced, and what is kept of it lacks only expired admissions. */
  ghost predicate KeyValid(h: seq<int>, kept: seq<int>, limit: nat, window: int, clock: int) {
    Sorted(h) && UpTo(h, clock) && Spaced(h, limit, window) && Keeps(h, kept, clock - window)
  }

  lemma TimePasses(h: seq<int>, kept: seq<int>, limit: nat, window: int, clock: int, now: int)
    requires KeyValid(h, kept, limit, window, clock) && clock <= now
    ensures KeyValid(h, kept, limit, window, now)
  {
    KeepsLater(h, kept, clock - window, now - window);
  }

  lemma PruneKeepsKey(h: seq<int>, kept: seq<int>, limit: nat, window: int, now: int)
    requires KeyValid(h, kept, limit, window, now)
    ensures Recent(kept, now - window) == Recent(h, now - window)
    ensures KeyValid(h, Recent(kept, now - window), limit, window, now)
  {
    PruneKeeps(h, kept, now - window, now - window);
    KeptDecides(h, kept, now - window);
  }

  lemma AdmitKeepsKey(h: seq<int>, kept: seq<int>, limit: nat, window: int, now: int)
    requires limit >= 1 && KeyValid(h, kept, limit, window, now)
    requires Decide(h, limit, window, now) == Admitted
    ensures KeyValid(h + [now], kept + [now], limit, window, now)
  {
    AdmissionKeepsSpacing(h, limit, window, now);
    KeepsAppend(h, kept, now - window, now);
  }

  lemma CleanupKeepsKey(h: seq<int>, kept: seq<int>, limit: nat, window: int, now: int)
    requires window <= CLEANUP_AGE && KeyValid(h, kept, limit, window, now)
    ensures KeyValid(h, Recent(kept, now - CLEANUP_AGE), limit, window, now)
  {
    PruneKeeps(h, kept, now - window, now - CLEANUP_AGE);
  }

  datatype Key = Key(text: string)

  function Lookup(m: map<Key, seq<int>>, key: Key): seq<int> {
    if key in m then m[key] else []
  }

  // ----- the store -----

  type Times = map<Key, seq<int>>

  /** Limit and window of every key. */
  datatype Config = Config(limit: Key -> nat, window: Key -> int)

  /** Every admission so far, and the timestamps the store still holds. */
  datatype State = State(admissions: Times, windows: Times)

  datatype Op = Call(key: Key, at: int) | Sweep(at: int)

  /** What the store decides: the verdict on the timestamps it holds. */
  function StoreDecision(s: State, key: Key, limit: nat, window: int, now: int): Decision
    requires limit >= 1
  {
    Verdict(Recent(Lookup(s.windows, key), now - window), limit, window, now)
  }

  function CallStep(s: State, key: Key, limit: nat, window: int, now: int): State {
    var valid := Recent(Lookup(s.windows, key), now - window);
    if |valid| >= limit then s.(windows := s.windows[key := valid])
    else State(s.admissions[key := Lookup(s.admissions, key) + [now]], s.windows[key := valid + [now]])
  }

  /** Each list without what is two minutes old; empty lists are dropped. */
  function Swept(windows: Times, now: int): Times {
    map key | key in windows && Recent(windows[key], now - CLEANUP_AGE) != [] :: Recent(windows[key], now - CLEANUP_AGE)
  }

  function Step(c: Config, s: State, op: Op): State {
    match op
    case Call(key, at) => CallStep(s, key, c.limit(key), c.window(key), at)
    case Sweep(at) => s.(windows := Swept(s.windows, at))
  }

  /** The source demands a limit of at least one; a window above two minutes outlives the cleanup. */
  predicate Covered(limit: nat, window: int) {
    limit >= 1 && window <= CLEANUP_AGE
  }

  ghost predicate KeyAt(c: Config, s: State, clock: int, key: Key) {
    Covered(c.limit(key), c.window(key)) ==>
      KeyValid(Lookup(s.admissions, key), Lookup(s.windows, key), c.limit(key), c.window(key), clock)
  }

  ghost predicate StoreValid(c: Config, s: State, clock: int) {
    forall key :: KeyAt(c, s, clock, key)
  }

  lemma StoreAdvances(c: Config, s: State, clock: int, now: int)
    requires StoreValid(c, s, clock) && clock <= now
    ensures StoreValid(c, s, now)
  {
    forall key ensures KeyAt(c, s, now, key) {
      assert KeyAt(c, s, clock, key);
      if Covered(c.limit(key), c.window(key)) {
        TimePasses(Lookup(s.admissions, key), Lookup(s.windows, key), c.limit(key), c.window(key), clock, now);
      }
    }
  }

  /** For a covered key the timestamps held decide as the full history does. */
  lemma StoreDecides(s: State, key: Key, limit: nat, window: int, now: int)
    requires limit >= 1 && KeyValid(Lookup(s.admissions, key), Lookup(s.windows, key), limit, window, now)
    ensures StoreDecision(s, key, limit, window, now) == Decide(Lookup(s.admissions, key), limit, window, now)
  {
    PruneKeepsKey(Lookup(s.admissions, key), Lookup(s.windows, key), limit, window, now);
  }

  lemma CallKeepsKey(s: State, key: Key, limit: nat, window: int, now: int)
    requires limit >= 1 && KeyValid(Lookup(s.admissions, key), Lookup(s.windows, key), limit, window, now)
    ensures var s' := CallStep(s, key, limit, window, now);
      KeyValid(Lookup(s'.admissions, key), Lookup(s'.windows, key), limit, window, now)
  {
    var h, kept := Lookup(s.admissions, key), Lookup(s.windows, key);
    PruneKeepsKey(h, kept, limit, window, now);
    var valid := Recent(kept, now - window);
    if |valid| < limit { AdmitKeepsKey(h, valid, limit, window, now); }
  }

  lemma CallKeeps(c: Config, s: State, s': State, key: Key, now: int)
    requires StoreValid(c, s, now) && s' == CallStep(s, key, c.limit(key), c.window(key), now)
    ensures StoreValid(c, s', now)
  {
    forall k ensures KeyAt(c, s', now, k) {
      assert KeyAt(c, s, now, k);
      if k == key {
        if Covered(c.limit(key), c.window(key)) { CallKeepsKey(s, key, c.limit(key), c.window(key), now); }
      } else {
        assert Lookup(s'.admissions, k) == Lookup(s.admissions, k) && Lookup(s'.windows, k) == Lookup(s.windows, k);
      }
    }
  }

  lemma SweepKeeps(c: Config, s: State, now: int)
    requires StoreValid(c, s, now)
    ensures StoreValid(c, s.(windows := Swept(s.windows, now)), now)
  {
    var s' := s.(windows := Swept(s.windows, now));
    forall k ensures KeyAt(c, s', now, k) {
      assert KeyAt(c, s, now, k);
      assert Lookup(s'.windows, k) == Recent(Lookup(s.windows, k), now - CLEANUP_AGE);
      if Covered(c.limit(k), c.window(k)) {
        CleanupKeepsKey(Lookup(s.admissions, k), Lookup(s.windows, k), c.limit(k), c.window(k), now);
      }
    }
  }

  lemma StepKeeps(c: Config, s: State, s': State, clock: int, op: Op)
    requires StoreValid(c, s, clock) && clock <= op.at && s' == Step(c, s, op)
    ensures StoreValid(c, s', op.at)
  {
    StoreAdvances(c, s, clock, op.at);
    match op
    case Call(key, at) => CallKeeps(c, s, s', key, at);
    case Sweep(at) => SweepKeeps(c, s, at);
  }

  /** In every reachable store no interval of window length holds more than `limit` admissions of a key. */
  lemma StoreNeverBursts(c: Config, s: State, clock: int, key: Key, from: int)
    requires StoreValid(c, s, clock) && Covered(c.limit(key), c.window(key))
    ensures CountIn(Lookup(s.admissions, key), from, from + c.window(key)) <= c.limit(key)
  {
    assert KeyAt(c, s, clock, key);
    NoBurst(Lookup(s.admissions, key), c.limit(key), c.window(key), from);
  }

  // ----- runs of the store -----

  /** The clock does not go back, from `clock` up to `now`. */
  predicate InOrder(ops: seq<Op>, clock: int, now: int) {
    if ops == [] then clock <= now else clock <= ops[0].at && InOrder(ops[1..], ops[0].at, now)
  }

  function Run(c: Config, s: State, ops: seq<Op>): State
    decreases |ops|
  {
    if ops == [] then s else Run(c, Step(c, s, ops[0]), ops[1..])
  }

  lemma {:induction false} RunKeeps(c: Config, s: State, ops: seq<Op>, clock: int, now: int)
    requires StoreValid(c, s, clock) && InOrder(ops, clock, now)
    ensures StoreValid(c, Run(c, s, ops), now)
    decreases |ops|
  {
    if ops == [] {
      StoreAdvances(c, s, clock, now);
    } else {
      StepKeeps(c, s, Step(c, s, ops[0]), clock, ops[0]);
      RunKeeps(c, Step(c, s, ops[0]), ops[1..], ops[0].at, now);
    }
  }

  ghost predicate CallsBefore(ops: seq<Op>, key: Key, until: int) {
    forall i :: 0 <= i < |ops| && ops[i].Call? && ops[i].key == key ==> ops[i].at < until
  }

  /** A key's history that rejects until `until`, and admits from then on. */
  ghost predicate RejectsUntil(h: seq<int>, limit: nat, window: int, t: int, until: int) {
    limit >= 1 && forall now :: t <= now ==> (Decide(h, limit, window, now).Rejected? <==> now < until)
  }

  /** While calls for the key come too early, whatever else happens leaves its admissions alone. */
  lemma {:induction false} EarlyCallsRejected(
      c: Config, s: State, ops: seq<Op>, t: int, clock: int, now: int, key: Key, until: int)
    requires Covered(c.limit(key), c.window(key)) && StoreValid(c, s, clock) && t <= clock && InOrder(ops, clock, now)
    requires RejectsUntil(Lookup(s.admissions, key), c.limit(key), c.window(key), t, until) &&
      CallsBefore(ops, key, until)
    ensures Lookup(Run(c, s, ops).admissions, key) == Lookup(s.admissions, key)
    decreases |ops|
  {
    if ops != [] {
      var op := ops[0];
      var s' := Step(c, s, op);
      StepKeeps(c, s, s', clock, op);
      if op.Call? && op.key == key {
        StoreAdvances(c, s, clock, op.at);
        assert KeyAt(c, s, op.at, key);
        StoreDecides(s, key, c.limit(key), c.window(key), op.at);
      }
      assert Lookup(s'.admissions, key) == Lookup(s.admissions, key);
      assert forall i :: 0 <= i < |ops[1..]| ==> ops[1..][i] == ops[i + 1];
      EarlyCallsRejected(c, s', ops[1..], t, op.at, now, key, until);
    }
  }

  /**
   * After a rejection at `t` with retry-after `r`, let calls for other keys, cleanups and calls for the key
   * before t + r happen in any order.  A call for the key is then rejected before t + r and admitted from
   * then on.
   */
  lemma RetryAfterOverRun(c: Config, s: State, key: Key, t: int, r: int, ops: seq<Op>, now: int)
    requires Covered(c.limit(key), c.window(key)) && StoreValid(c, s, t)
    requires StoreDecision(s, key, c.limit(key), c.window(key), t) == Rejected(r)
    requires InOrder(ops, t, now) && CallsBefore(ops, key, t + r)
    ensures var s' := Run(c, Step(c, s, Call(key, t)), ops);
      StoreDecision(s', key, c.limit(key), c.window(key), now).Rejected? <==> now < t + r
  {
    var h, limit, window := Lookup(s.admissions, key), c.limit(key), c.window(key);
    assert KeyAt(c, s, t, key);
    StoreDecides(s, key, limit, window, t);
    forall later | t <= later ensures Decide(h, limit, window, later).Rejected? <==> later < t + r {
      RetryAfterExact(h, limit, window, t, r, later);
    }
    var s1 := Step(c, s, Call(key, t));
    StepKeeps(c, s, s1, t, Call(key, t));
    EarlyCallsRejected(c, s1, ops, t, t, now, key, t + r);
    RunKeeps(c, s1, ops, t, now);
    var s' := Run(c, s1, ops);
    assert KeyAt(c, s', now, key);
    StoreDecides(s', key, limit, window, now);
    InOrderEnds(ops, t, now);
  }

  lemma {:induction false} InOrderEnds(ops: seq<Op>, clock: int, now: int)
    requires InOrder(ops, clock, now)
    ensures clock <= now
  {
    if ops != [] { InOrderEnds(ops[1..], ops[0].at, now); }
  }

  // ----- the store as written -----

  /** All that one call needs to know about the store. */
  lemma CallFacts(c: Config, s: State, clock: int, key: Key, limit: nat, window: int, now: int)
    requires StoreValid(c, s, clock) && clock <= now && limit >= 1 && limit == c.limit(key) && window == c.window(key)
    ensures Step(c, s, Call(key, now)) == CallStep(s, key, limit, window, now)
    ensures StoreValid(c, CallStep(s, key, limit, window, now), now)
    ensures window <= CLEANUP_AGE ==>
      && StoreDecision(s, key, limit, window, now) == Decide(Lookup(s.admissions, key), limit, window, now)
      && (StoreDecision(s, key, limit, window, now) == Admitted <==>
            CountIn(Lookup(s.admissions, key), now - window + 1, now + 1) < limit)
  {
    StoreAdvances(c, s, clock, now);
    CallKeeps(c, s, CallStep(s, key, limit, window, now), key, now);
    assert KeyAt(c, s, now, key);
    if window <= CLEANUP_AGE {
      StoreDecides(s, key, limit, window, now);
      DecideIff(Lookup(s.admissions, key), limit, window, now);
    }
  }

  class RateLimitStore {
    ghost const config: Config
    var windows: Times
    ghost var admissions: Times
    ghost var clock: int

    ghost function Abs(): State
      reads this
    {
      State(admissions, windows)
    }

    ghost predicate Valid()
      reads this
    {
      StoreValid(config, Abs(), clock)
    }

    constructor (ghost config: Config)
      ensures Valid() && this.config == config && Abs() == State(map[], map[])
    {
      this.config := config;
      windows, admissions, clock := map[], map[], 0;
    }

    static method Prune(timestamps: seq<int>, cutoff: int) returns (valid: seq<int>)
      ensures valid == Recent(timestamps, cutoff)
    {
      valid := [];
      for i := 0 to |timestamps|
        invariant valid == Recent(timestamps[..i], cutoff)
      {
        assert timestamps[..i + 1][..i] == timestamps[..i];
        if timestamps[i] > cutoff {
          valid := valid + [timestamps[i]];
        }
      }
      assert timestamps[..|timestamps|] == timestamps;
    }

    /** Follows the store's run; for a covered key it decides as the full history would. */
    method Allow(key: Key, limit: nat, window: int, now: int) returns (allowed: bool, retryAfter: int)
      requires Valid() && clock <= now && limit >= 1 && limit == config.limit(key) && window == config.window(key)
      modifies this
      ensures Valid() && clock == now && Abs() == Step(config, old(Abs()), Call(key, now))
      ensures (if allowed then Admitted else Rejected(retryAfter)) == StoreDecision(old(Abs()), key, limit, window, now)
      ensures allowed ==> retryAfter == 0
      ensures window <= CLEANUP_AGE ==>
        && StoreDecision(old(Abs()), key, limit, window, now) ==
             Decide(Lookup(old(admissions), key), limit, window, now)
        && (allowed <==> CountIn(Lookup(old(admissions), key), now - window + 1, now + 1) < limit)
      ensures Lookup(admissions, key) == Lookup(old(admissions), key) + if allowed then [now] else []
    {
      CallFacts(config, Abs(), clock, key, limit, window, now);
      clock := now;
      var timestamps := if key in windows then windows[key] else [];
      var valid := Prune(timestamps, now - window);
      if |valid| >= limit {
        windows := windows[key := valid];
        retryAfter := window - (now - valid[0]);
        if retryAfter < 0 {
          retryAfter := 0;
        }
        return false, retryAfter;
      }
      windows := windows[key := valid + [now]];
      admissions := admissions[key := Lookup(admissions, key) + [now]];
      return true, 0;
    }

    /** One tick of the background cleanup, over the keys in any order. */
    method Cleanup(now: int)
      requires Valid() && clock <= now
      modifies this
      ensures Valid() && clock == now && Abs() == Step(config, old(Abs()), Sweep(now))
    {
      StoreAdvances(config, Abs(), clock, now);
      SweepKeeps(config, Abs(), now);
      clock := now;
      var keys := windows.Keys;
      ghost var before := windows;
      while keys != {}
        invariant clock == now && admissions == old(admissions) && keys <= windows.Keys
        invariant forall key :: key in keys ==> key in before && windows[key] == before[key]
        invariant forall key :: key in windows && key !in keys ==>
          key in Swept(before, now) && windows[key] == Swept(before, now)[key]
        invariant forall key :: key in Swept(before, now) ==> key in windows
        decreases keys
      {
        assert (forall key :: key !in keys) ==> keys == {};
        var key :| key in keys;
        keys := keys - {key};
        var valid := Prune(windows[key], now - CLEANUP_AGE);
        if |valid| == 0 {
          windows := windows - {key};
        } else {
          windows := windows[key := valid];
        }
      }
      assert windows == Swept(before, now);
    }
  }
}
