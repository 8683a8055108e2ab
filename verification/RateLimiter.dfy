/** The token bucket that paces rule processing, and the batches that run behind it. Time is a
    parameter, in seconds; floating point is modelled by real numbers. */
module RateLimiter {

  /** What the rate earns in a time. */
  function Earned(elapsed: real, qps: real): (e: real)
    ensures 0.0 <= elapsed && 0.0 <= qps ==> 0.0 <= e
  {
    elapsed * qps
  }

  lemma EarnedAdds(x: real, y: real, qps: real)
    ensures Earned(x, qps) + Earned(y, qps) == Earned(x + y, qps)
  {
  }

  datatype Bucket = Bucket(tokens: real, maxTokens: real, qps: real, lastTime: real) {
    ghost predicate Valid() {
      0.0 <= tokens <= maxTokens && 0.0 <= qps
    }

    /** The level after the refill of a call. */
    function Refilled(now: real): real {
      var level := tokens + Earned(now - lastTime, qps);
      if level > maxTokens then maxTokens else level
    }

    predicate Admits(now: real) {
      Refilled(now) >= 1.0
    }

    function After(now: real): Bucket {
      this.(tokens := if Admits(now) then Refilled(now) - 1.0 else Refilled(now), lastTime := now)
    }
  }

  class Limiter {
    var tokens: real
    const maxTokens: real
    const qps: real
    var lastTime: real

    constructor (qps: real, burst: int, now: real)
      ensures View() == Bucket(burst as real, burst as real, qps, now)
    {
      this.tokens, this.maxTokens, this.qps, this.lastTime := burst as real, burst as real, qps, now;
    }

    function View(): Bucket
      reads this
    {
      Bucket(tokens, maxTokens, qps, lastTime)
    }

    method Allow(now: real) returns (ok: bool)
      modifies this
      ensures ok == old(View()).Admits(now)
      ensures View() == old(View()).After(now)
    {
      var elapsed := now - lastTime;
      lastTime := now;
      var earned := elapsed * qps;
      EarnedIs(elapsed, qps, earned);
      tokens := tokens + earned;
      if tokens > maxTokens {
        tokens := maxTokens;
      }
      if tokens < 1.0 {
        return false;
      }
      tokens := tokens - 1.0;
      return true;
    }
  }

  // ---- runs of calls -------------------------------------------------------------------

  ghost predicate Monotone(times: seq<real>, start: real) {
    && (forall i :: 0 <= i < |times| ==> start <= times[i])
    && (forall i, j :: 0 <= i < j < |times| ==> times[i] <= times[j])
  }

  function AfterAll(b: Bucket, times: seq<real>): Bucket
    decreases |times|
  {
    if times == [] then b else AfterAll(b.After(times[0]), times[1..])
  }

  function Admitted(b: Bucket, times: seq<real>): nat
    decreases |times|
  {
    if times == [] then 0
    else (if b.Admits(times[0]) then 1 else 0) + Admitted(b.After(times[0]), times[1..])
  }

  lemma StepValid(b: Bucket, now: real)
    requires b.Valid() && b.lastTime <= now
    ensures b.After(now).Valid()
    ensures b.After(now).tokens + (if b.Admits(now) then 1.0 else 0.0) <= b.tokens + Earned(now - b.lastTime, b.qps)
  {
  }

  lemma {:induction false} PaidFor(b: Bucket, times: seq<real>)
    requires b.Valid() && Monotone(times, b.lastTime)
    ensures AfterAll(b, times).Valid()
    ensures var end := if times == [] then b.lastTime else times[|times| - 1];
            AfterAll(b, times).tokens + Admitted(b, times) as real <= b.tokens + Earned(end - b.lastTime, b.qps)
    decreases |times|
  {
    if times != [] {
      var now, rest := times[0], times[1..];
      StepValid(b, now);
      assert Monotone(rest, now) by {
        assert forall i :: 0 <= i < |rest| ==> rest[i] == times[i + 1];
      }
      PaidFor(b.After(now), rest);
      var end := times[|times| - 1];
      assert end == if rest == [] then now else rest[|rest| - 1];
      EarnedAdds(end - now, now - b.lastTime, b.qps);
      assert (end - now) + (now - b.lastTime) == end - b.lastTime;
    }
  }

  /** Earnings are time by rate. */
  lemma EarnedIs(elapsed: real, qps: real, earned: real)
    requires earned == elapsed * qps
    ensures Earned(elapsed, qps) == earned
  {
  }

  /** Whatever the level at the start, admissions are paid for by it and by the rate times the time that
      passes. */
  lemma Conservation(b: Bucket, times: seq<real>, elapsed: real, earned: real)
    requires b.Valid() && Monotone(times, b.lastTime)
    requires elapsed == (if times == [] then 0.0 else times[|times| - 1] - b.lastTime) && earned == elapsed * b.qps
    ensures AfterAll(b, times).Valid()
    ensures AfterAll(b, times).tokens + Admitted(b, times) as real <= b.tokens + earned
  {
    EarnedIs(elapsed, b.qps, earned);
    PaidFor(b, times);
  }

  lemma MonotoneSplit(before: seq<real>, window: seq<real>, start: real)
    requires Monotone(before + window, start)
    ensures Monotone(before, start)
    ensures Monotone(window, if before == [] then start else before[|before| - 1])
  {
    var all := before + window;
    assert forall i :: 0 <= i < |before| ==> all[i] == before[i];
    assert forall i :: 0 <= i < |window| ==> all[|before| + i] == window[i];
    forall i | 0 <= i < |window| && before != [] ensures before[|before| - 1] <= window[i] {
      assert all[|before| - 1] <= all[|before| + i];
    }
    forall i, j | 0 <= i < j < |window| ensures window[i] <= window[j] {
      assert all[|before| + i] <= all[|before| + j];
    }
  }

  lemma WindowFrom(b: Bucket, window: seq<real>)
    requires b.Valid() && Monotone(window, b.lastTime) && window != []
    ensures Admitted(b, window) as real <= b.maxTokens + Earned(window[|window| - 1] - window[0], b.qps)
  {
    var first, rest := window[0], window[1..];
    StepValid(b, first);
    assert Monotone(rest, first) by {
      assert forall i :: 0 <= i < |rest| ==> rest[i] == window[i + 1];
    }
    PaidFor(b.After(first), rest);
    assert b.After(first).tokens + (if b.Admits(first) then 1.0 else 0.0) == b.Refilled(first) <= b.maxTokens;
    assert window[|window| - 1] == if rest == [] then first else rest[|rest| - 1];
  }

  lemma WindowPaid(b: Bucket, before: seq<real>, window: seq<real>)
    requires b.Valid() && Monotone(before + window, b.lastTime) && window != []
    ensures AfterAll(b, before).Valid()
    ensures Admitted(AfterAll(b, before), window) as real
            <= b.maxTokens + Earned(window[|window| - 1] - window[0], b.qps)
  {
    MonotoneSplit(before, window, b.lastTime);
    PaidFor(b, before);
    AfterAllFixed(b, before);
    WindowFrom(AfterAll(b, before), window);
  }

  /** In every run, tokens stay between zero and the burst, and any window of consecutive calls
      admits at most the burst and the rate times the time between its first and last call. */
  lemma WindowBound(b: Bucket, before: seq<real>, window: seq<real>, elapsed: real, earned: real)
    requires b.Valid() && Monotone(before + window, b.lastTime) && window != []
    requires elapsed == window[|window| - 1] - window[0] && earned == elapsed * b.qps
    ensures 0.0 <= AfterAll(b, before).tokens <= b.maxTokens
    ensures Admitted(AfterAll(b, before), window) as real <= b.maxTokens + earned
  {
    EarnedIs(elapsed, b.qps, earned);
    WindowPaid(b, before, window);
    AfterAllFixed(b, before);
  }

  lemma {:induction false} AfterAllFixed(b: Bucket, times: seq<real>)
    ensures AfterAll(b, times).maxTokens == b.maxTokens && AfterAll(b, times).qps == b.qps
    ensures AfterAll(b, times).lastTime == if times == [] then b.lastTime else times[|times| - 1]
    decreases |times|
  {
    if times != [] {
      AfterAllFixed(b.After(times[0]), times[1..]);
    }
  }

  lemma PacedCallAdmitted(b: Bucket, now: real)
    requires b.Valid() && 1.0 <= b.maxTokens && Earned(now - b.lastTime, b.qps) >= 1.0
    ensures b.Admits(now)
  {
  }

  /** A call is refused exactly while level and earnings together stay below one token. */
  lemma RefusedExactlyWhen(b: Bucket, now: real)
    requires b.Valid() && 1.0 <= b.maxTokens
    ensures !b.Admits(now) <==> b.tokens + (now - b.lastTime) * b.qps < 1.0
  {
  }

  /** A time of `1 / qps` earns one token. */
  lemma PeriodEarnsOne(elapsed: real, qps: real)
    requires qps > 0.0 && elapsed >= 1.0 / qps
    ensures Earned(elapsed, qps) >= 1.0
  {
  }

  lemma SpacedFrom(b: Bucket, now: real)
    requires b.Valid() && 1.0 <= b.maxTokens && 0.0 < b.qps && now - b.lastTime >= 1.0 / b.qps
    ensures b.Admits(now)
  {
    PeriodEarnsOne(now - b.lastTime, b.qps);
    PacedCallAdmitted(b, now);
  }

  /** In every run, a call at least `1 / qps` after the previous one is admitted. */
  lemma SpacedCallAdmitted(b: Bucket, before: seq<real>, now: real)
    requires b.Valid() && 1.0 <= b.maxTokens && 0.0 < b.qps && Monotone(before, b.lastTime)
    requires now - AfterAll(b, before).lastTime >= 1.0 / b.qps
    ensures AfterAll(b, before).Admits(now)
    ensures AfterAll(b, before).lastTime == if before == [] then b.lastTime else before[|before| - 1]
  {
    PaidFor(b, before);
    AfterAllFixed(b, before);
    SpacedFrom(AfterAll(b, before), now);
  }

  /** `n` calls at one instant. */
  function Burst(now: real, n: nat): seq<real> {
    if n == 0 then [] else [now] + Burst(now, n - 1)
  }

  lemma NothingEarned(b: Bucket)
    requires b.Valid()
    ensures b.Refilled(b.lastTime) == b.tokens
  {
    assert Earned(0.0, b.qps) == 0.0;
    assert b.lastTime - b.lastTime == 0.0;
  }

  /** A bucket lets as many calls through at one instant as it holds whole tokens, and refuses the
      next: a full one meets the bound. */
  lemma {:induction false} BurstAdmitted(b: Bucket, n: nat)
    requires b.Valid() && b.tokens >= n as real
    ensures Admitted(b, Burst(b.lastTime, n)) == n
    ensures AfterAll(b, Burst(b.lastTime, n)) == b.(tokens := b.tokens - n as real)
    ensures b.tokens < n as real + 1.0 ==> !AfterAll(b, Burst(b.lastTime, n)).Admits(b.lastTime)
    decreases n
  {
    if n > 0 {
      var b' := b.(tokens := b.tokens - 1.0);
      NothingEarned(b);
      assert b.Admits(b.lastTime) && b.After(b.lastTime) == b';
      assert Burst(b.lastTime, n)[1..] == Burst(b.lastTime, n - 1);
      assert (n - 1) as real == n as real - 1.0;
      BurstAdmitted(b', n - 1);
      assert AfterAll(b, Burst(b.lastTime, n)) == AfterAll(b', Burst(b.lastTime, n - 1));
      assert Admitted(b, Burst(b.lastTime, n)) == 1 + Admitted(b', Burst(b.lastTime, n - 1));
    }
    NothingEarned(b.(tokens := b.tokens - n as real));
  }

  // ---- paced runs ----------------------------------------------------------------------

  /** Consecutive calls are at least `gap` apart. */
  ghost predicate Spaced(times: seq<real>, gap: real) {
    forall i :: 0 <= i < |times| - 1 ==> times[i + 1] - times[i] >= gap
  }

  lemma EarnsMore(x: real, gap: real, qps: real)
    requires 0.0 <= qps && gap <= x
    ensures Earned(gap, qps) <= Earned(x, qps)
  {
    EarnedAdds(x - gap, gap, qps);
    assert 0.0 <= Earned(x - gap, qps);
  }

  /** A run that is admitted once and then keeps a pace that earns a token per call is admitted to the
      end, however long it is. */
  lemma {:induction false} SpacedRunAllAdmitted(b: Bucket, times: seq<real>, gap: real)
    requires b.Valid() && 1.0 <= b.maxTokens && 0.0 <= gap && Earned(gap, b.qps) >= 1.0
    requires times != [] ==> b.lastTime <= times[0] && b.Admits(times[0])
    requires Spaced(times, gap)
    ensures Admitted(b, times) == |times|
    decreases |times|
  {
    if times != [] {
      var b', rest := b.After(times[0]), times[1..];
      StepValid(b, times[0]);
      if rest != [] {
        assert times[1] - times[0] >= gap;
        EarnsMore(rest[0] - b'.lastTime, gap, b.qps);
        PacedCallAdmitted(b', rest[0]);
      }
      assert Spaced(rest, gap) by {
        assert forall i :: 0 <= i < |rest| ==> rest[i] == times[i + 1];
      }
      SpacedRunAllAdmitted(b', rest, gap);
    }
  }

  /** If all calls of a run are admitted, each of them is. */
  lemma {:induction false} EachAdmitted(b: Bucket, times: seq<real>, i: nat)
    requires i < |times| && Admitted(b, times) == |times|
    ensures AfterAll(b, times[..i]).Admits(times[i])
    decreases |times|
  {
    AdmittedAtMost(b.After(times[0]), times[1..]);
    if i > 0 {
      EachAdmitted(b.After(times[0]), times[1..], i - 1);
      assert times[..i][1..] == times[1..][..i - 1];
    }
  }

  lemma {:induction false} AdmittedAtMost(b: Bucket, times: seq<real>)
    ensures Admitted(b, times) <= |times|
    decreases |times|
  {
    if times != [] {
      AdmittedAtMost(b.After(times[0]), times[1..]);
    }
  }

  lemma {:induction false} AfterAllSnoc(b: Bucket, times: seq<real>, now: real)
    ensures AfterAll(b, times + [now]) == AfterAll(b, times).After(now)
    decreases |times|
  {
    if times == [] {
      assert times + [now] == [now] && [now][1..] == [];
    } else {
      assert (times + [now])[1..] == times[1..] + [now];
      AfterAllSnoc(b.After(times[0]), times[1..], now);
    }
  }

  // ---- batches -------------------------------------------------------------------------

  const DEFAULT_QPS := 20.0
  const DEFAULT_BURST := 100
  const MIN_DELAY_MS := 100
  const MAX_DELAY_MS := 2000
  const REFUSED_DELAY_MS := 3000

  /** What the environment does around one item: the random part of the delay, whether the context
      is found cancelled at a batch boundary or during the wait, by how much the timer is late, how
      long the work takes and whether it fails. */
  datatype Around = Around(
    jitter: nat, cancelledAtBoundary: bool, cancelledInWait: bool, late: real, workTime: real, workFails: bool)

  ghost predicate Plausible(a: Around) {
    a.jitter < MAX_DELAY_MS - MIN_DELAY_MS && a.late >= 0.0 && a.workTime >= 0.0
  }

  datatype Result = Finished | Cancelled | WorkFailed

  /** The bucket a batch starts with. */
  function FullBucket(start: real): Bucket {
    Bucket(DEFAULT_BURST as real, DEFAULT_BURST as real, DEFAULT_QPS, start)
  }

  /** The delay chosen for a call at `now` after the calls at `times`: the random one if the bucket
      admits it. */
  function DelayMs(start: real, times: seq<real>, now: real, a: Around): int {
    if AfterAll(FullBucket(start), times).Admits(now) then MIN_DELAY_MS + a.jitter else REFUSED_DELAY_MS
  }

  /** Every call has the delay the bucket decides. */
  ghost predicate Delayed(start: real, times: seq<real>, delays: seq<int>, around: seq<Around>)
    requires |times| == |delays| <= |around|
    decreases |times|
  {
    times == [] ||
      var n := |times| - 1;
      && delays[n] == DelayMs(start, times[..n], times[n], around[n])
      && Delayed(start, times[..n], delays[..n], around)
  }

  /** The time to wait before the next call, none if the context is cancelled. */
  function Pause(delay: int, a: Around): real {
    if a.cancelledInWait then 0.0 else delay as real / 1000.0
  }

  /** The first call comes some time after the bucket was made; unless the context is cancelled, each next
      one comes only after the delay. */
  ghost predicate Paced(start: real, times: seq<real>, delays: seq<int>, around: seq<Around>)
    requires |times| == |delays| <= |around|
  {
    && (times != [] ==> times[0] >= start)
    && forall i :: 0 <= i < |times| - 1 ==> times[i + 1] - times[i] >= Pause(delays[i], around[i])
  }

  /** A trace of calls. */
  ghost predicate Trace(start: real, times: seq<real>, delays: seq<int>, around: seq<Around>) {
    && |times| == |delays| <= |around|
    && Delayed(start, times, delays, around) && Paced(start, times, delays, around)
  }

  lemma FullStaysFull(start: real, now: real)
    requires start <= now
    ensures FullBucket(start).Valid() && FullBucket(start).Admits(now)
  {
  }

  /** Every delay is at least the minimum. */
  lemma {:induction false} DelaysAtLeast(start: real, times: seq<real>, delays: seq<int>, around: seq<Around>, i: nat)
    requires |times| == |delays| <= |around| && Delayed(start, times, delays, around) && i < |times|
    ensures delays[i] >= MIN_DELAY_MS
    ensures delays[i] == DelayMs(start, times[..i], times[i], around[i])
    decreases |times|
  {
    var n := |times| - 1;
    if i < n {
      DelaysAtLeast(start, times[..n], delays[..n], around, i);
      assert times[..n][..i] == times[..i];
    }
  }

  lemma TraceSpaced(start: real, times: seq<real>, delays: seq<int>, around: seq<Around>)
    requires Trace(start, times, delays, around)
    requires forall i :: 0 <= i < |times| - 1 ==> !around[i].cancelledInWait
    ensures Spaced(times, 0.1)
  {
    forall i | 0 <= i < |times| - 1 ensures times[i + 1] - times[i] >= 0.1 {
      DelaysAtLeast(start, times, delays, around, i);
      assert Pause(delays[i], around[i]) >= 0.1;
    }
  }

  /** A sequential batch is never throttled: while the context is live, the bucket admits every call of
      the trace, of any length, and every delay is the random one. */
  lemma NeverThrottled(start: real, times: seq<real>, delays: seq<int>, around: seq<Around>)
    requires Trace(start, times, delays, around)
    requires forall i :: 0 <= i < |times| - 1 ==> !around[i].cancelledInWait
    ensures Admitted(Bucket(100.0, 100.0, 20.0, start), times) == |times|
    ensures forall i :: 0 <= i < |times| ==> delays[i] == 100 + around[i].jitter
  {
    var b := FullBucket(start);
    TraceSpaced(start, times, delays, around);
    if times != [] {
      FullStaysFull(start, times[0]);
    }
    assert Earned(0.1, b.qps) >= 1.0;
    SpacedRunAllAdmitted(b, times, 0.1);
    forall i | 0 <= i < |times| ensures delays[i] == MIN_DELAY_MS + around[i].jitter {
      EachAdmitted(b, times, i);
      DelaysAtLeast(start, times, delays, around, i);
    }
  }

  /** The next call may come at `now`. */
  ghost predicate Due(start: real, times: seq<real>, delays: seq<int>, around: seq<Around>, now: real)
    requires |times| == |delays| <= |around|
  {
    var n := |times| - 1;
    if times == [] then now >= start else now - times[n] >= Pause(delays[n], around[n])
  }

  lemma TraceSnoc(start: real, times: seq<real>, delays: seq<int>, around: seq<Around>, now: real, delay: int)
    requires Trace(start, times, delays, around) && |times| < |around| && Due(start, times, delays, around, now)
    requires delay == DelayMs(start, times, now, around[|times|])
    ensures Trace(start, times + [now], delays + [delay], around)
    ensures AfterAll(FullBucket(start), times + [now]) == AfterAll(FullBucket(start), times).After(now)
  {
    AfterAllSnoc(FullBucket(start), times, now);
    assert (times + [now])[..|times|] == times && (delays + [delay])[..|times|] == delays;
  }

  /** A new batch begins with the item, the first one aside. */
  predicate AtBoundary(batchSize: int, i: nat)
    requires batchSize != 0
  {
    i > 0 && i % batchSize == 0
  }

  /** The item ends the batch before its work, or with it. */
  predicate StopsBefore(around: seq<Around>, batchSize: int, i: nat)
    requires i < |around| && batchSize != 0
  {
    (AtBoundary(batchSize, i) && around[i].cancelledAtBoundary) || around[i].cancelledInWait
  }

  /** How many items get worked on: those before the first that stops, that one included if it is its
      work that fails. */
  ghost predicate WorkedUpTo(around: seq<Around>, batchSize: int, n: nat, r: Result)
    requires batchSize != 0
  {
    && n <= |around|
    && (forall i :: 0 <= i < n ==> !StopsBefore(around, batchSize, i))
    && (forall i :: 0 <= i < n - 1 ==> !around[i].workFails)
    && match r
       case Finished => n == |around| && (n > 0 ==> !around[n - 1].workFails)
       case Cancelled => n < |around| && StopsBefore(around, batchSize, n) && (n > 0 ==> !around[n - 1].workFails)
       case WorkFailed => n > 0 && around[n - 1].workFails
  }

  method Wait(limiter: Limiter, now: real, a: Around) returns (delayMs: int, ok: bool)
    modifies limiter
    ensures limiter.View() == old(limiter.View()).After(now)
    ensures delayMs == if old(limiter.View()).Admits(now) then MIN_DELAY_MS + a.jitter else REFUSED_DELAY_MS
    ensures ok == !a.cancelledInWait
  {
    delayMs := MIN_DELAY_MS + a.jitter;
    var admitted := limiter.Allow(now);
    if !admitted {
      delayMs := MAX_DELAY_MS * 3 / 2;
    }
    ok := !a.cancelledInWait;
  }

  /** Waits, then works. The next call can come no earlier than `next`. */
  method AddAndExecute(limiter: Limiter, now: real, a: Around) returns (delayMs: int, r: Result, next: real)
    requires Plausible(a)
    modifies limiter
    ensures limiter.View() == old(limiter.View()).After(now)
    ensures delayMs == if old(limiter.View()).Admits(now) then MIN_DELAY_MS + a.jitter else REFUSED_DELAY_MS
    ensures r == if a.cancelledInWait then Cancelled else if a.workFails then WorkFailed else Finished
    ensures next - now >= Pause(delayMs, a)
  {
    var ok;
    delayMs, ok := Wait(limiter, now, a);
    if !ok {
      return delayMs, Cancelled, now + a.late;
    }
    next := now + delayMs as real / 1000.0 + a.late + a.workTime;
    r := if a.workFails then WorkFailed else Finished;
  }

  /** One more call of a trace. */
  method NextCall(limiter: Limiter, now: real, around: seq<Around>, i: nat,
                  ghost start: real, ghost times: seq<real>, ghost delays: seq<int>)
    returns (delay: int, r: Result, next: real)
    requires i < |around| && Plausible(around[i]) && limiter.View() == AfterAll(FullBucket(start), times)
    requires Trace(start, times, delays, around) && |times| == i && Due(start, times, delays, around, now)
    modifies limiter
    ensures limiter.View() == AfterAll(FullBucket(start), times + [now])
    ensures Trace(start, times + [now], delays + [delay], around)
    ensures Due(start, times + [now], delays + [delay], around, next)
    ensures r == if around[i].cancelledInWait then Cancelled else if around[i].workFails then WorkFailed else Finished
  {
    delay, r, next := AddAndExecute(limiter, now, around[i]);
    TraceSnoc(start, times, delays, around, now, delay);
  }

  /** Works on the items one after the other behind the limiter: exactly on a prefix, in order, up to
      and including the first failure. No call is ever refused by the bucket. */
  method ProcessBatch(items: seq<string>, around: seq<Around>, batchSize: int, start: real, first: real)
    returns (log: seq<string>, delays: seq<int>, r: Result, ghost times: seq<real>)
    requires |items| == |around| && batchSize != 0 && start <= first
    requires forall i :: 0 <= i < |around| ==> Plausible(around[i])
    ensures |log| <= |items| && log == items[..|log|]
    ensures WorkedUpTo(around, batchSize, |log|, r)
    ensures Trace(start, times, delays, around) && |log| <= |times| <= |log| + 1
    ensures Admitted(Bucket(100.0, 100.0, 20.0, start), times) == |times|
    ensures forall i :: 0 <= i < |delays| ==> delays[i] == 100 + around[i].jitter && 100 <= delays[i] < 2000
  {
    log, delays, r, times := BatchLoop(items, around, batchSize, start, first);
    forall i | 0 <= i < |times| - 1 ensures !around[i].cancelledInWait {
      assert !StopsBefore(around, batchSize, i);
    }
    NeverThrottled(start, times, delays, around);
  }

  method BatchLoop(items: seq<string>, around: seq<Around>, batchSize: int, start: real, first: real)
    returns (log: seq<string>, delays: seq<int>, r: Result, ghost times: seq<real>)
    requires |items| == |around| && batchSize != 0 && start <= first
    requires forall i :: 0 <= i < |around| ==> Plausible(around[i])
    ensures |log| <= |items| && log == items[..|log|]
    ensures WorkedUpTo(around, batchSize, |log|, r)
    ensures Trace(start, times, delays, around) && |log| <= |times| <= |log| + 1
  {
    var limiter := new Limiter(DEFAULT_QPS, DEFAULT_BURST, start);
    var now := first;
    log, delays, times := [], [], [];
    r := Finished;
    for i := 0 to |items|
      invariant fresh(limiter) && limiter.View() == AfterAll(FullBucket(start), times)
      invariant Trace(start, times, delays, around) && |times| == i
      invariant Due(start, times, delays, around, now)
      invariant log == items[..i] && r == Finished
      invariant Clear(around, batchSize, i)
    {
      if i > 0 && i % batchSize == 0 && around[i].cancelledAtBoundary {
        EndsAt(around, batchSize, i, Cancelled);
        r := Cancelled;
        break;
      }
      var delay, done, next := NextCall(limiter, now, around, i, start, times, delays);
      delays, times, now := delays + [delay], times + [now], next;
      EndsAt(around, batchSize, i, done);
      if done == Cancelled {
        r := Cancelled;
        break;
      }
      log := log + [items[i]];
      assert log == items[..i + 1];
      if done == WorkFailed {
        r := WorkFailed;
        break;
      }
    }
    if r == Finished {
      AllClear(around, batchSize);
    }
  }

  /** Nothing stops the batch before item `n`. */
  ghost predicate Clear(around: seq<Around>, batchSize: int, n: nat)
    requires batchSize != 0
  {
    n <= |around| && forall i :: 0 <= i < n ==> !StopsBefore(around, batchSize, i) && !around[i].workFails
  }

  lemma AllClear(around: seq<Around>, batchSize: int)
    requires batchSize != 0 && Clear(around, batchSize, |around|)
    ensures WorkedUpTo(around, batchSize, |around|, Finished)
  {
  }

  /** One item more: the batch goes on, or ends there. */
  lemma EndsAt(around: seq<Around>, batchSize: int, i: nat, r: Result)
    requires batchSize != 0 && i < |around| && Clear(around, batchSize, i)
    requires r == Cancelled <==> StopsBefore(around, batchSize, i)
    requires r == WorkFailed ==> around[i].workFails
    requires r == Finished ==> !around[i].workFails
    ensures r == Finished ==> Clear(around, batchSize, i + 1)
    ensures r == Cancelled ==> WorkedUpTo(around, batchSize, i, r)
    ensures r == WorkFailed ==> WorkedUpTo(around, batchSize, i + 1, r)
  {
  }

  /** The items whose work succeeded, in order. */
  function Synced(items: seq<string>, around: seq<Around>): seq<string>
    requires |items| == |around|
  {
    if items == [] then []
    else
      var n := |items| - 1;
      Synced(items[..n], around[..n])
      + if around[n].cancelledInWait || around[n].workFails then [] else [items[n]]
  }

  /** The loop over the sources of a rule: it goes on after every error, so each item is tried once and
      the ones that succeed are reported. While the context is live, the bucket refuses none. */
  method ProcessResources(items: seq<string>, around: seq<Around>, start: real, first: real)
    returns (synced: seq<string>, delays: seq<int>, ghost times: seq<real>)
    requires |items| == |around| && start <= first
    requires forall i :: 0 <= i < |around| ==> Plausible(around[i])
    ensures synced == Synced(items, around)
    ensures Trace(start, times, delays, around) && |times| == |items|
    ensures (forall i :: 0 <= i < |around| ==> !around[i].cancelledInWait) ==>
              && Admitted(Bucket(100.0, 100.0, 20.0, start), times) == |times|
              && forall i :: 0 <= i < |delays| ==> delays[i] == 100 + around[i].jitter && 100 <= delays[i] < 2000
  {
    synced, delays, times := ResourceLoop(items, around, start, first);
    if forall i :: 0 <= i < |around| ==> !around[i].cancelledInWait {
      NeverThrottled(start, times, delays, around);
    }
  }

  method ResourceLoop(items: seq<string>, around: seq<Around>, start: real, first: real)
    returns (synced: seq<string>, delays: seq<int>, ghost times: seq<real>)
    requires |items| == |around| && start <= first
    requires forall i :: 0 <= i < |around| ==> Plausible(around[i])
    ensures synced == Synced(items, around)
    ensures Trace(start, times, delays, around) && |times| == |items|
  {
    var limiter := new Limiter(DEFAULT_QPS, DEFAULT_BURST, start);
    var now := first;
    synced, delays, times := [], [], [];
    for i := 0 to |items|
      invariant fresh(limiter) && limiter.View() == AfterAll(FullBucket(start), times)
      invariant Trace(start, times, delays, around) && |times| == i
      invariant Due(start, times, delays, around, now)
      invariant synced == Synced(items[..i], around[..i])
    {
      SyncedSnoc(items, around, i);
      var delay, done, next := NextCall(limiter, now, around, i, start, times, delays);
      delays, times, now := delays + [delay], times + [now], next;
      if done != Finished {
        continue;
      }
      synced := synced + [items[i]];
    }
    assert items[..|items|] == items && around[..|around|] == around;
  }

  lemma SyncedSnoc(items: seq<string>, around: seq<Around>, i: nat)
    requires i < |items| == |around|
    ensures Synced(items[..i + 1], around[..i + 1])
         == Synced(items[..i], around[..i])
            + if around[i].cancelledInWait || around[i].workFails then [] else [items[i]]
  {
    assert items[..i + 1][..i] == items[..i] && around[..i + 1][..i] == around[..i];
  }

  /** The number of items worked on and the result are determined by the environment. */
  lemma BatchDetermined(around: seq<Around>, batchSize: int, m: nat, r: Result, n: nat, q: Result)
    requires batchSize != 0
    requires WorkedUpTo(around, batchSize, m, r) && WorkedUpTo(around, batchSize, n, q)
    ensures m == n && r == q
  {
  }
}
