/**
 * The worker process: `runWithRetry` with linear backoff, the fixed-delay
 * re-arming of each job's timer, and the append-only `service_health` log
 * the heartbeat job writes. Whether an attempt of `job.run()` resolves is an
 * oracle over the attempt number; time is an abstract millisecond clock.
 */
module Worker {
  import opened JsValue

  /** A job descriptor of the `jobs` table (its `run` is the outcome oracle). */
  datatype Job = Job(name: string, intervalMs: int, maxRetries: int, retryDelayMs: int)

  const Heartbeat := Job("worker-heartbeat", 60000, 3, 2000)

  /** `succeeds(k)`: whether attempt `k` (counted from 1) of `job.run()` resolves. */
  type Outcomes = nat -> bool

  /** One `runWithRetry` call: attempts made, the sleeps between them, the last result. */
  datatype Trace = Trace(attempts: nat, delays: seq<int>, succeeded: bool)

  function Max(a: int, b: int): int {
    if a < b then b else a
  }

  /**
   * `runWithRetry(job, attempt)`: run once; on failure, while `attempt <
   * maxRetries`, sleep `retryDelayMs * attempt` and recurse. Every failure
   * is swallowed, so the call always yields a trace and never an error.
   */
  function RunWithRetry(job: Job, succeeds: Outcomes, attempt: nat): (t: Trace)
    requires attempt >= 1
    ensures t.attempts >= 1 && |t.delays| == t.attempts - 1
    ensures forall i :: 0 <= i < |t.delays| ==> t.delays[i] == job.retryDelayMs * (attempt + i)
    ensures forall k :: attempt <= k < attempt + t.attempts - 1 ==> !succeeds(k)
    ensures t.succeeded == succeeds(attempt + t.attempts - 1)
    ensures attempt + t.attempts - 1 <= Max(attempt, job.maxRetries)
    ensures !t.succeeded ==> attempt + t.attempts - 1 == Max(attempt, job.maxRetries)
    decreases if attempt < job.maxRetries then job.maxRetries - attempt else 0
  {
    if succeeds(attempt) then Trace(1, [], true)
    else if attempt < job.maxRetries then
      var rest := RunWithRetry(job, succeeds, attempt + 1);
      Trace(rest.attempts + 1, [job.retryDelayMs * attempt] + rest.delays, rest.succeeded)
    else Trace(1, [], false)
  }

  /** A run stops at the first success: if attempt `k` is the first to
      succeed within the limit, exactly `k` attempts are made. */
  lemma StopsAtFirstSuccess(job: Job, succeeds: Outcomes, k: nat)
    requires 1 <= k <= Max(1, job.maxRetries) && succeeds(k)
    requires forall j :: 1 <= j < k ==> !succeeds(j)
    ensures RunWithRetry(job, succeeds, 1).attempts == k
    ensures RunWithRetry(job, succeeds, 1).succeeded
  {
    var t := RunWithRetry(job, succeeds, 1);
    if t.attempts != k {
      assert false;
    }
  }

  /** A job whose work always fails is tried `max(1, maxRetries)` times. */
  lemma ExhaustsRetries(job: Job, succeeds: Outcomes)
    requires forall k :: 1 <= k <= Max(1, job.maxRetries) ==> !succeeds(k)
    ensures RunWithRetry(job, succeeds, 1).attempts == Max(1, job.maxRetries)
    ensures !RunWithRetry(job, succeeds, 1).succeeded
  {
    var t := RunWithRetry(job, succeeds, 1);
    assert !succeeds(t.attempts);
  }

  function Sum(xs: seq<int>): int
    decreases |xs|
  {
    if xs == [] then 0 else xs[0] + Sum(xs[1..])
  }

  /** Twice an arithmetic series `d*a, d*(a+1), ...` of length n is `d*n*(2a+n-1)`. */
  lemma {:induction false} LinearSeriesSum(ds: seq<int>, d: int, a: int)
    requires forall i :: 0 <= i < |ds| ==> ds[i] == d * (a + i)
    ensures 2 * Sum(ds) == d * |ds| * (2 * a + |ds| - 1)
    decreases |ds|
  {
    if ds != [] {
      var n := |ds|;
      forall i | 0 <= i < |ds[1..]| ensures ds[1..][i] == d * ((a + 1) + i) {
        assert ds[1..][i] == ds[i + 1];
      }
      LinearSeriesSum(ds[1..], d, a + 1);
      assert 2 * Sum(ds[1..]) == d * (n - 1) * (2 * a + n);
      assert ds[0] == d * a;
      SeriesStep(d, a, n);
    }
  }

  /** One step of the series: the first term plus the rest shifted by one. */
  lemma SeriesStep(d: int, a: int, n: int)
    ensures 2 * (d * a) + d * (n - 1) * (2 * a + n) == d * n * (2 * a + n - 1)
  {
    var m := (n - 1) * (2 * a + n);
    assert m == 2 * a * n - 2 * a + n * n - n;
    assert d * (n - 1) * (2 * a + n) == d * m;
    assert 2 * (d * a) + d * m == d * (2 * a + m);
    assert 2 * a + m == n * (2 * a + n - 1);
    assert d * (n * (2 * a + n - 1)) == d * n * (2 * a + n - 1);
  }

  /** Linear backoff: n attempts wait `retryDelayMs * n(n-1)/2` in all. */
  lemma TotalBackoff(job: Job, succeeds: Outcomes)
    ensures var t := RunWithRetry(job, succeeds, 1);
            2 * Sum(t.delays) == job.retryDelayMs * t.attempts * (t.attempts - 1)
  {
    var t := RunWithRetry(job, succeeds, 1);
    LinearSeriesSum(t.delays, job.retryDelayMs, 1);
    assert |t.delays| == t.attempts - 1;
  }

  /** The heartbeat job makes at most three attempts, waiting 2000 and then 4000 ms. */
  lemma HeartbeatBackoff(succeeds: Outcomes)
    ensures var t := RunWithRetry(Heartbeat, succeeds, 1);
            1 <= t.attempts <= 3 && t.delays == [2000, 4000][..t.attempts - 1]
    ensures !succeeds(1) && !succeeds(2) && !succeeds(3) ==>
              RunWithRetry(Heartbeat, succeeds, 1) == Trace(3, [2000, 4000], false)
  {
    var t := RunWithRetry(Heartbeat, succeeds, 1);
    assert t.attempts <= 3;
    if t.attempts == 3 {
      assert t.delays[0] == 2000 && t.delays[1] == 4000;
    } else if t.attempts == 2 {
      assert t.delays[0] == 2000;
    }
  }

  // ---- Timers ----

  /** Node's `setTimeout` runs a delay below 1 or above 2^31 - 1 ms after 1 ms. */
  const MaxTimerDelay := 2147483647

  function TimerDelay(ms: int): (d: int)
    ensures 1 <= d <= MaxTimerDelay
    ensures 1 <= ms <= MaxTimerDelay ==> d == ms
  {
    if 1 <= ms <= MaxTimerDelay then ms else 1
  }

  /** Time spent in attempts `from .. from + n - 1`. */
  function AttemptsTime(attemptMs: nat -> nat, from: nat, n: nat): nat
    decreases n
  {
    if n == 0 then 0 else attemptMs(from) + AttemptsTime(attemptMs, from + 1, n - 1)
  }

  /** Time spent sleeping between attempts. */
  function WaitTime(delays: seq<int>): nat
    decreases |delays|
  {
    if delays == [] then 0 else TimerDelay(delays[0]) + WaitTime(delays[1..])
  }

  /** How long one `runWithRetry` call takes, attempts and sleeps included. */
  function RunDuration(t: Trace, attemptMs: nat -> nat): nat {
    AttemptsTime(attemptMs, 1, t.attempts) + WaitTime(t.delays)
  }

  /** One completed `runWithRetry` call of a job on the clock. */
  datatype Run = Run(start: int, finish: int, trace: Trace)

  /** Fixed-delay scheduling: each run starts `gap` after the previous one finished. */
  predicate FixedDelay(runs: seq<Run>, gap: int) {
    (forall i :: 0 <= i < |runs| ==> runs[i].start <= runs[i].finish) &&
    (forall i :: 0 <= i < |runs| - 1 ==> runs[i + 1].start == runs[i].finish + gap)
  }

  /** Runs of one job never overlap: each finishes before any later one starts. */
  lemma {:induction false} RunsNeverOverlap(runs: seq<Run>, gap: int)
    requires FixedDelay(runs, gap) && gap >= 1
    ensures forall i, j :: 0 <= i < j < |runs| ==> runs[i].finish < runs[j].start
    decreases |runs|
  {
    if |runs| > 1 {
      var init := runs[..|runs| - 1];
      assert FixedDelay(init, gap) by {
        forall i | 0 <= i < |init| - 1 ensures init[i + 1].start == init[i].finish + gap {
          assert init[i] == runs[i] && init[i + 1] == runs[i + 1];
        }
      }
      RunsNeverOverlap(init, gap);
      var last := |runs| - 1;
      forall i, j | 0 <= i < j < |runs| ensures runs[i].finish < runs[j].start {
        if j < last {
          assert runs[i] == init[i] && runs[j] == init[j];
        } else if i < last - 1 {
          assert runs[i] == init[i] && runs[last - 1] == init[last - 1];
          assert runs[i].finish < runs[last - 1].start <= runs[last - 1].finish;
        }
      }
    }
  }

  /** The per-job `schedule` loop on an abstract clock. */
  class JobTimer {
    const job: Job
    /** When the armed timer fires next. */
    var nextStart: int
    /** The runs completed so far, oldest first. */
    var runs: seq<Run>

    ghost predicate Valid()
      reads this
    {
      FixedDelay(runs, TimerDelay(job.intervalMs)) &&
      (|runs| > 0 ==> nextStart == runs[|runs| - 1].finish + TimerDelay(job.intervalMs))
    }

    /** `schedule()` is first called at start-up, without waiting. */
    constructor (job: Job, startedAt: int)
      ensures Valid()
      ensures this.job == job && nextStart == startedAt && runs == []
    {
      this.job := job;
      nextStart := startedAt;
      runs := [];
    }

    /**
     * One iteration of `schedule`: when the timer fires, `runWithRetry`
     * runs to completion, then the timer is re-armed `intervalMs` after it
     * finished.
     */
    method Tick(succeeds: Outcomes, attemptMs: nat -> nat) returns (t: Trace)
      requires Valid()
      modifies this
      ensures Valid()
      ensures t == RunWithRetry(job, succeeds, 1)
      ensures runs == old(runs) + [Run(old(nextStart), old(nextStart) + RunDuration(t, attemptMs), t)]
      ensures nextStart == old(nextStart) + RunDuration(t, attemptMs) + TimerDelay(job.intervalMs)
    {
      t := RunWithRetry(job, succeeds, 1);
      var finish := nextStart + RunDuration(t, attemptMs);
      runs := runs + [Run(nextStart, finish, t)];
      nextStart := finish + TimerDelay(job.intervalMs);
    }
  }

  // ---- The service_health log ----

  /** A row of `service_health`; `checked_at` is the database's default. */
  datatype HealthRow = HealthRow(service: string, status: string, details: Value)

  const HeartbeatRow := HealthRow("worker", "ok", Obj(map["message" := Str("heartbeat")]))

  class ServiceHealth {
    var rows: seq<HealthRow>

    constructor ()
      ensures rows == []
    {
      rows := [];
    }

    /** `recordServiceHealth`: one INSERT, existing rows untouched. */
    method Record(service: string, status: string, details: Value)
      modifies this
      ensures rows == old(rows) + [HealthRow(service, status, details)]
    {
      rows := rows + [HealthRow(service, status, details)];
    }
  }

  /**
   * One scheduled run of the heartbeat job. An attempt succeeds exactly when
   * its insert commits, so a successful run appends one `("worker", "ok")`
   * row and an exhausted one appends none.
   */
  method HeartbeatTick(timer: JobTimer, health: ServiceHealth, succeeds: Outcomes, attemptMs: nat -> nat)
    returns (t: Trace)
    requires timer.Valid() && timer.job == Heartbeat
    modifies timer, health
    ensures timer.Valid()
    ensures t == RunWithRetry(Heartbeat, succeeds, 1)
    ensures timer.runs == old(timer.runs) + [Run(old(timer.nextStart), old(timer.nextStart) + RunDuration(t, attemptMs), t)]
    ensures health.rows == old(health.rows) + (if t.succeeded then [HeartbeatRow] else [])
  {
    t := timer.Tick(succeeds, attemptMs);
    if t.succeeded {
      health.Record(HeartbeatRow.service, HeartbeatRow.status, HeartbeatRow.details);
    }
  }
}
