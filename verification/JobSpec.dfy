/**
 The job scheduler of tnmJob.c as functions on values: clock adjustment, one pass over
 the job list, and runs of the scheduler. A job's script is an oracle that says whether
 its k-th evaluation fails; scripts do not touch the scheduler.
 */
module JobSpec {
  import opened Vectors
  import opened CNumbers

  datatype Status = Suspended | Waiting | Running | Expired

  // errorCmd says whether the job has a script that handles errors. Times are in ms.
  datatype Job = Job(id: nat, interval: int, iterations: nat, remtime: int, status: Status, errorCmd: bool)

  datatype Time = Time(sec: int, usec: int)

  const NEVER := Time(0, 0)

  datatype Sched = Sched(jobs: seq<Job>, last: Time, timer: Option<nat>, trace: seq<nat>)

  type Script = (nat, nat) -> bool

  // ----- The clock -----

  function Delta(last: Time, now: Time): int {
    (now.sec - last.sec) * 1000 + TruncDiv(now.usec - last.usec, 1000)
  }

  // What AdjustTime subtracts from the remaining times.
  function Charge(last: Time, now: Time): nat {
    if last == NEVER || Delta(last, now) <= 0 then 0 else Delta(last, now)
  }

  function AdjustJob(j: Job, ms: nat): Job {
    if j.status != Suspended then j.(remtime := j.remtime - ms) else j
  }

  function Adjust(jobs: seq<Job>, ms: nat): seq<Job> {
    seq(|jobs|, i requires 0 <= i < |jobs| => AdjustJob(jobs[i], ms))
  }

  predicate ClockTime(t: Time) {
    0 <= t.sec && 0 <= t.usec < 1000000
  }

  function Micros(t: Time): int {
    t.sec * 1000000 + t.usec
  }

  // One adjustment is off by less than a millisecond.
  lemma ChargeClose(last: Time, now: Time)
    requires ClockTime(last) && ClockTime(now) && 0 < Micros(last) <= Micros(now)
    ensures -1000 < 1000 * Charge(last, now) - (Micros(now) - Micros(last)) < 1000
  {
    var d := now.usec - last.usec;
    if d >= 0 {
      assert d == 1000 * (d / 1000) + d % 1000;
    } else {
      assert -d == 1000 * (-d / 1000) + (-d) % 1000;
    }
  }

  // Nothing is charged the first time, or when the clock has not gone on.
  lemma NoCharge(last: Time, now: Time)
    requires last == NEVER || (ClockTime(last) && ClockTime(now) && Micros(now) <= Micros(last))
    ensures Charge(last, now) == 0
  {
  }

  // What consecutive adjustments charge in all.
  function TotalCharge(last: Time, times: seq<Time>): nat
    decreases |times|
  {
    if times == [] then 0 else Charge(last, times[0]) + TotalCharge(times[0], times[1..])
  }

  function LastOf(last: Time, times: seq<Time>): Time {
    if times == [] then last else times[|times| - 1]
  }

  lemma {:induction false} TotalChargeAppend(last: Time, a: seq<Time>, b: seq<Time>)
    ensures TotalCharge(last, a + b) == TotalCharge(last, a) + TotalCharge(LastOf(last, a), b)
    ensures LastOf(last, a + b) == LastOf(LastOf(last, a), b)
    decreases |a|
  {
    if a == [] {
      assert a + b == b;
    } else {
      assert (a + b)[1..] == a[1..] + b;
      TotalChargeAppend(a[0], a[1..], b);
    }
  }

  // Clock times that do not run back.
  ghost predicate Ascending(last: Time, times: seq<Time>)
    decreases |times|
  {
    && ClockTime(last) && 0 < Micros(last)
    && (times != [] ==> Micros(last) <= Micros(times[0]) && Ascending(times[0], times[1..]))
  }

  /** Over n adjustments the total charged is never negative and differs from the time that really
      passed by less than n ms. */
  lemma {:induction false} DriftBound(last: Time, times: seq<Time>)
    requires Ascending(last, times)
    ensures var passed := Micros(LastOf(last, times)) - Micros(last);
            -999 * |times| <= 1000 * TotalCharge(last, times) - passed <= 999 * |times|
    decreases |times|
  {
    if times != [] {
      ChargeClose(last, times[0]);
      DriftBound(times[0], times[1..]);
    }
  }

  // ----- One pass -----

  predicate Due(j: Job) {
    j.status == Waiting && j.remtime <= 0
  }

  function AfterRun(j: Job, failed: bool): Job {
    var status := if failed && !j.errorCmd then Expired else Waiting;
    if j.iterations > 0
    then j.(iterations := j.iterations - 1, remtime := j.interval,
            status := if j.iterations == 1 then Expired else status)
    else j.(remtime := j.interval, status := status)
  }

  // Every due job is run, in list order; k evaluations came before.
  function RunAll(jobs: seq<Job>, k: nat, fails: Script): seq<Job>
    decreases |jobs|
  {
    if jobs == [] then []
    else if Due(jobs[0]) then [AfterRun(jobs[0], fails(jobs[0].id, k))] + RunAll(jobs[1..], k + 1, fails)
    else [jobs[0]] + RunAll(jobs[1..], k, fails)
  }

  function DueId(j: Job): seq<nat> {
    if Due(j) then [j.id] else []
  }

  function DueIds(jobs: seq<Job>): seq<nat> {
    Collect(jobs, DueId)
  }

  function Swept(j: Job): seq<Job> {
    if j.status == Expired then [] else [j]
  }

  function Sweep(jobs: seq<Job>): seq<Job> {
    Collect(jobs, Swept)
  }

  // The least remaining time over the jobs the timer has to wait for.
  predicate TimerJob(j: Job) {
    j.status == Waiting || j.status == Expired
  }

  function Clamp(ms: int): nat {
    if ms < 0 then 0 else ms
  }

  ghost predicate IsTimer(jobs: seq<Job>, t: Option<nat>) {
    && (t.None? ==> forall j :: j in jobs ==> !TimerJob(j))
    && (t.Some? ==> (exists j :: j in jobs && TimerJob(j) && t.value == Clamp(j.remtime))
                    && forall j :: j in jobs && TimerJob(j) ==> t.value <= Clamp(j.remtime))
  }

  lemma TimerUnique(jobs: seq<Job>, t: Option<nat>, u: Option<nat>)
    requires IsTimer(jobs, t) && IsTimer(jobs, u)
    ensures t == u
  {
    if t.Some? {
      var j :| j in jobs && TimerJob(j) && t.value == Clamp(j.remtime);
      assert u.Some?;
      var i :| i in jobs && TimerJob(i) && u.value == Clamp(i.remtime);
    }
  }

  // NextSchedule: sets the timer, and forgets the time when there is nothing to wait for.
  ghost predicate Reschedules(jobs: seq<Job>, last: Time, s: Sched) {
    && s.jobs == jobs && IsTimer(jobs, s.timer)
    && s.last == if s.timer.None? then NEVER else last
  }

  ghost predicate PassStep(s: Sched, now1: Time, now2: Time, fails: Script, t: Sched) {
    var before := Adjust(s.jobs, Charge(s.last, now1));
    var swept := Sweep(RunAll(before, |s.trace|, fails));
    && t.trace == s.trace + DueIds(before)
    && Reschedules(Adjust(swept, Charge(now1, now2)), now2, t)
  }

  function Ids(jobs: seq<Job>): seq<nat> {
    if jobs == [] then [] else [jobs[0].id] + Ids(jobs[1..])
  }

  // Ids are unique, intervals positive, and no job is left running between events.
  ghost predicate Good(jobs: seq<Job>) {
    && (forall x :: Count(Ids(jobs), x) <= 1)
    && (forall j :: j in jobs ==> j.interval > 0 && j.status != Running)
  }

  lemma {:induction false} RunAllAt(jobs: seq<Job>, k: nat, fails: Script, i: nat)
    requires i < |jobs|
    ensures |RunAll(jobs, k, fails)| == |jobs|
    ensures RunAll(jobs, k, fails)[i] ==
              if Due(jobs[i]) then AfterRun(jobs[i], fails(jobs[i].id, k + |DueIds(jobs[..i])|)) else jobs[i]
    decreases |jobs|
  {
    if |jobs| > 1 {
      RunAllAt(jobs[1..], if Due(jobs[0]) then k + 1 else k, fails, if i > 0 then i - 1 else 0);
    }
    if i > 0 {
      assert jobs[..i][0] == jobs[0] && jobs[..i][1..] == jobs[1..][..i - 1];
    } else {
      assert jobs[..i] == [];
    }
  }

  lemma {:induction false} SweepIn(jobs: seq<Job>, j: Job)
    ensures j in Sweep(jobs) <==> j in jobs && j.status != Expired
  {
    if jobs != [] { SweepIn(jobs[1..], j); }
  }

  /** After the run and sweep loops of a pass no job is due and none is expired. */
  lemma PassSettles(jobs: seq<Job>, k: nat, fails: Script, j: Job)
    requires Good(jobs) && j in Sweep(RunAll(jobs, k, fails))
    ensures !Due(j) && j.status != Expired
  {
    SweepIn(RunAll(jobs, k, fails), j);
    var i :| 0 <= i < |RunAll(jobs, k, fails)| && RunAll(jobs, k, fails)[i] == j;
    if jobs != [] { RunAllAt(jobs, k, fails, 0); }
    RunAllAt(jobs, k, fails, i);
    assert jobs[i] in jobs;
  }
}
