/**
 Runs of the job scheduler (tnmJob.c): any interleaving of passes, creations and
 reconfigurations, and what holds over all of them.
 */
module JobRuns {
  import opened Vectors
  import opened JobSpec

  // The value of one option. now is when the status option adjusts the clock.
  datatype Change =
    | SetStatus(status: Status, now: Time)
    | SetInterval(ms: int)
    | SetIterations(n: int)
    | SetError(b: bool)

  /** Set is one option of a listed job, Touch the status option of a job that is not listed yet. Read
      is a look at the remaining time, which every create and configure ends with. */
  datatype Event =
    | Pass(now1: Time, now2: Time, fails: Script)
    | Create(job: Job)
    | Set(i: nat, c: Change)
    | Touch(now: Time)
    | Read(now: Time)
    | Destroy(i: nat)

  predicate Accepted(c: Change) {
    (c.SetInterval? ==> c.ms > 0) && (c.SetIterations? ==> c.n >= 0)
  }

  function Changed(j: Job, c: Change): Job {
    match c
    case SetStatus(st, _) => j.(status := if st == Running then Waiting else st)
    case SetInterval(ms) => if ms > 0 then j.(interval := ms) else j
    case SetIterations(n) => if n >= 0 then j.(iterations := n) else j
    case SetError(b) => j.(errorCmd := b)
  }

  function Ended(j: Job): Job {
    j.(status := Expired)
  }

  ghost predicate Step(s: Sched, e: Event, t: Sched) {
    match e
    case Pass(now1, now2, fails) => PassStep(s, now1, now2, fails, t)
    case Create(j) =>
      && j.id !in Ids(s.jobs) && j.interval > 0 && j.remtime == 0 && j.status != Running
      && t.trace == s.trace && Reschedules(s.jobs + [j], s.last, t)
    case Set(i, c) =>
      && i < |s.jobs| && t.trace == s.trace
      && var jobs := s.jobs[i := Changed(s.jobs[i], c)];
         if c.SetStatus? then Reschedules(Adjust(jobs, Charge(s.last, c.now)), c.now, t)
         else t == s.(jobs := jobs)
    case Touch(now) => t.trace == s.trace && Reschedules(Adjust(s.jobs, Charge(s.last, now)), now, t)
    case Read(now) => t == s.(jobs := Adjust(s.jobs, Charge(s.last, now)), last := now)
    case Destroy(i) => i < |s.jobs| && t == s.(jobs := s.jobs[i := Ended(s.jobs[i])])
  }

  function Find(jobs: seq<Job>, x: nat): Option<Job> {
    if jobs == [] then None else if jobs[0].id == x then Some(jobs[0]) else Find(jobs[1..], x)
  }

  // ----- What each part of a step does to the job with id x -----

  lemma {:induction false} FindCount(jobs: seq<Job>, x: nat)
    ensures Find(jobs, x).Some? <==> Count(Ids(jobs), x) > 0
    ensures Find(jobs, x).Some? ==> Find(jobs, x).value.id == x && Find(jobs, x).value in jobs
  {
    if jobs != [] {
      FindCount(jobs[1..], x);
      assert Ids(jobs)[1..] == Ids(jobs[1..]);
    }
  }

  lemma AdjustTail(jobs: seq<Job>, ms: nat)
    requires jobs != []
    ensures Adjust(jobs, ms)[0] == AdjustJob(jobs[0], ms) && Adjust(jobs, ms)[1..] == Adjust(jobs[1..], ms)
  {
  }

  lemma {:induction false} AdjustJobs(jobs: seq<Job>, ms: nat, x: nat)
    ensures Ids(Adjust(jobs, ms)) == Ids(jobs)
    ensures Find(Adjust(jobs, ms), x) == match Find(jobs, x) case None => None case Some(j) => Some(AdjustJob(j, ms))
  {
    if jobs != [] {
      AdjustTail(jobs, ms);
      AdjustJobs(jobs[1..], ms, x);
    }
  }

  lemma AdjustGood(jobs: seq<Job>, ms: nat)
    requires Good(jobs)
    ensures Good(Adjust(jobs, ms))
  {
    AdjustJobs(jobs, ms, 0);
    forall j | j in Adjust(jobs, ms) ensures j.interval > 0 && j.status != Running {
      var i :| 0 <= i < |jobs| && j == AdjustJob(jobs[i], ms);
      assert jobs[i] in jobs;
    }
  }

  lemma {:induction false} RunJobs(jobs: seq<Job>, k: nat, fails: Script, x: nat)
    ensures Ids(RunAll(jobs, k, fails)) == Ids(jobs)
    ensures Find(RunAll(jobs, k, fails), x).Some? <==> Find(jobs, x).Some?
    ensures Find(jobs, x).Some? ==>
              var j := Find(jobs, x).value;
              var j' := Find(RunAll(jobs, k, fails), x).value;
              if Due(j) then exists m: nat :: j' == AfterRun(j, fails(x, m)) else j' == j
    decreases |jobs|
  {
    if jobs != [] {
      var k' := if Due(jobs[0]) then k + 1 else k;
      RunJobs(jobs[1..], k', fails, x);
      assert RunAll(jobs, k, fails)[1..] == RunAll(jobs[1..], k', fails);
    }
  }

  lemma RunGood(jobs: seq<Job>, k: nat, fails: Script)
    requires Good(jobs)
    ensures Good(RunAll(jobs, k, fails))
  {
    RunJobs(jobs, k, fails, 0);
    forall j | j in RunAll(jobs, k, fails) ensures j.interval > 0 && j.status != Running {
      var i :| 0 <= i < |RunAll(jobs, k, fails)| && RunAll(jobs, k, fails)[i] == j;
      if jobs != [] { RunAllAt(jobs, k, fails, 0); }
      RunAllAt(jobs, k, fails, i);
      assert jobs[i] in jobs;
    }
  }

  // A due job is run exactly once in a pass, any other job not at all.
  lemma {:induction false} RunsOnce(jobs: seq<Job>, x: nat)
    requires Count(Ids(jobs), x) <= 1
    ensures Count(DueIds(jobs), x) == if Find(jobs, x).Some? && Due(Find(jobs, x).value) then 1 else 0
  {
    if jobs != [] {
      assert Ids(jobs)[1..] == Ids(jobs[1..]);
      RunsOnce(jobs[1..], x);
      FindCount(jobs[1..], x);
      if Due(jobs[0]) {
        assert DueIds(jobs)[1..] == DueIds(jobs[1..]);
      } else {
        assert DueIds(jobs) == DueIds(jobs[1..]);
      }
    }
  }

  lemma {:induction false} SweepJobs(jobs: seq<Job>, x: nat)
    requires Count(Ids(jobs), x) <= 1
    ensures Count(Ids(Sweep(jobs)), x) <= Count(Ids(jobs), x)
    ensures Find(Sweep(jobs), x) ==
              match Find(jobs, x) case None => None case Some(j) => if j.status == Expired then None else Some(j)
  {
    if jobs != [] {
      assert Ids(jobs)[1..] == Ids(jobs[1..]);
      SweepJobs(jobs[1..], x);
      FindCount(jobs[1..], x);
      if jobs[0].status == Expired {
        assert Sweep(jobs) == Sweep(jobs[1..]);
      } else {
        assert Sweep(jobs)[1..] == Sweep(jobs[1..]);
        assert Ids(Sweep(jobs))[1..] == Ids(Sweep(jobs[1..]));
      }
    }
  }

  lemma SweepGood(jobs: seq<Job>)
    requires Good(jobs)
    ensures Good(Sweep(jobs))
  {
    forall x ensures Count(Ids(Sweep(jobs)), x) <= 1 { SweepJobs(jobs, x); }
    forall j | j in Sweep(jobs) ensures j.interval > 0 && j.status != Running { SweepIn(jobs, j); }
  }

  lemma {:induction false} AppendJob(jobs: seq<Job>, j: Job, x: nat)
    ensures Count(Ids(jobs + [j]), x) == Count(Ids(jobs), x) + (if j.id == x then 1 else 0)
    ensures j.id != x ==> Find(jobs + [j], x) == Find(jobs, x)
  {
    if jobs == [] {
      assert jobs + [j] == [j];
    } else {
      assert (jobs + [j])[1..] == jobs[1..] + [j];
      AppendJob(jobs[1..], j, x);
      assert Ids(jobs)[1..] == Ids(jobs[1..]) && Ids(jobs + [j])[1..] == Ids(jobs[1..] + [j]);
    }
  }

  lemma {:induction false} UpdateJob(jobs: seq<Job>, i: nat, j: Job, x: nat)
    requires i < |jobs| && j.id == jobs[i].id && Count(Ids(jobs), jobs[i].id) <= 1
    ensures Ids(jobs[i := j]) == Ids(jobs)
    ensures Find(jobs[i := j], x) == if x == j.id then Some(j) else Find(jobs, x)
    ensures Find(jobs, j.id) == Some(jobs[i])
  {
    assert Ids(jobs)[1..] == Ids(jobs[1..]);
    if i > 0 {
      assert jobs[i := j][1..] == jobs[1..][i - 1 := j];
      UpdateJob(jobs[1..], i - 1, j, x);
      FindCount(jobs[1..], j.id);
    } else {
      assert jobs[i := j][1..] == jobs[1..];
    }
  }

  // ----- Invariants of runs -----

  lemma StepKeepsGood(s: Sched, e: Event, t: Sched)
    requires Good(s.jobs) && Step(s, e, t)
    ensures Good(t.jobs)
  {
    match e
    case Pass(now1, now2, fails) =>
      var before := Adjust(s.jobs, Charge(s.last, now1));
      AdjustGood(s.jobs, Charge(s.last, now1));
      RunGood(before, |s.trace|, fails);
      SweepGood(RunAll(before, |s.trace|, fails));
      AdjustGood(Sweep(RunAll(before, |s.trace|, fails)), Charge(now1, now2));
    case Create(j) =>
      forall x ensures Count(Ids(s.jobs + [j]), x) <= 1 {
        AppendJob(s.jobs, j, x);
        CountIn(Ids(s.jobs), x);
      }
    case Set(i, c) =>
      UpdateGood(s.jobs, i, Changed(s.jobs[i], c));
      if c.SetStatus? { AdjustGood(s.jobs[i := Changed(s.jobs[i], c)], Charge(s.last, c.now)); }
    case Touch(now) => AdjustGood(s.jobs, Charge(s.last, now));
    case Read(now) => AdjustGood(s.jobs, Charge(s.last, now));
    case Destroy(i) => UpdateGood(s.jobs, i, Ended(s.jobs[i]));
  }

  lemma UpdateGood(jobs: seq<Job>, i: nat, j: Job)
    requires Good(jobs) && i < |jobs| && j.id == jobs[i].id
    requires (jobs[i].interval > 0 ==> j.interval > 0) && (jobs[i].status != Running ==> j.status != Running)
    ensures Good(jobs[i := j])
  {
    UpdateJob(jobs, i, j, 0);
    assert jobs[i] in jobs;
  }

  // The event leaves the iterations of job x alone.
  ghost predicate Undisturbed(s: Sched, e: Event, x: nat) {
    match e
    case Create(j) => j.id != x
    case Set(i, c) => i < |s.jobs| && s.jobs[i].id == x ==> !c.SetIterations?
    case _ => true
  }

  // The event does not end job x.
  ghost predicate Unharmed(s: Sched, e: Event, x: nat) {
    match e
    case Pass(_, _, fails) => forall k :: !fails(x, k)
    case Set(i, c) => i < |s.jobs| && s.jobs[i].id == x ==> (c.SetStatus? ==> c.status != Expired)
    case Destroy(i) => i < |s.jobs| ==> s.jobs[i].id != x
    case _ => true
  }

  /** Job x had n iterations to go when it had been run c times: as long as it is listed it still
      has the rest to go; once it is gone it has been run at most n times more, and exactly n
      times if it was unharmed. */
  ghost predicate Budget(s: Sched, x: nat, n: nat, c: nat, unharmed: bool) {
    var runs := Count(s.trace, x) - c;
    match Find(s.jobs, x)
    case Some(j) => j.iterations > 0 && runs + j.iterations == n && (unharmed ==> j.status != Expired)
    case None => runs <= n && (unharmed ==> runs == n)
  }

  lemma StepKeepsBudget(s: Sched, e: Event, t: Sched, x: nat, n: nat, c: nat, unharmed: bool)
    requires Good(s.jobs) && Step(s, e, t) && Undisturbed(s, e, x) && Budget(s, x, n, c, unharmed)
    requires unharmed ==> Unharmed(s, e, x)
    ensures Budget(t, x, n, c, unharmed)
  {
    match e
    case Pass(now1, now2, fails) => PassKeepsBudget(s, now1, now2, fails, t, x, n, c, unharmed);
    case Create(j) => AppendJob(s.jobs, j, x);
    case Set(i, c') =>
      UpdateJob(s.jobs, i, Changed(s.jobs[i], c'), x);
      if c'.SetStatus? { AdjustJobs(s.jobs[i := Changed(s.jobs[i], c')], Charge(s.last, c'.now), x); }
    case Touch(now) => AdjustJobs(s.jobs, Charge(s.last, now), x);
    case Read(now) => AdjustJobs(s.jobs, Charge(s.last, now), x);
    case Destroy(i) => UpdateJob(s.jobs, i, Ended(s.jobs[i]), x);
  }

  lemma PassKeepsBudget(s: Sched, now1: Time, now2: Time, fails: Script, t: Sched, x: nat, n: nat, c: nat,
                        unharmed: bool)
    requires Good(s.jobs) && PassStep(s, now1, now2, fails, t) && Budget(s, x, n, c, unharmed)
    requires unharmed ==> forall k :: !fails(x, k)
    ensures Budget(t, x, n, c, unharmed)
  {
    var before := Adjust(s.jobs, Charge(s.last, now1));
    AdjustJobs(s.jobs, Charge(s.last, now1), x);
    var after := RunAll(before, |s.trace|, fails);
    RunJobs(before, |s.trace|, fails, x);
    RunsOnce(before, x);
    CountAppend(s.trace, DueIds(before), x);
    SweepJobs(after, x);
    AdjustJobs(Sweep(after), Charge(now1, now2), x);
  }

  ghost predicate IsRun(ss: seq<Sched>, es: seq<Event>) {
    |ss| == |es| + 1 && forall i :: 0 <= i < |es| ==> Step(ss[i], es[i], ss[i + 1])
  }

  /** In every run, a job with n > 0 iterations to go runs at most n times more whatever else
      happens to the scheduler, and exactly n times before it disappears unless one of its own runs
      fails or it is destroyed. */
  lemma {:induction false} IterationsExact(ss: seq<Sched>, es: seq<Event>, x: nat, n: nat, unharmed: bool)
    requires IsRun(ss, es) && Good(ss[0].jobs) && n > 0
    requires Find(ss[0].jobs, x).Some? && Find(ss[0].jobs, x).value.iterations == n
    requires unharmed ==> Find(ss[0].jobs, x).value.status != Expired
    requires forall i :: 0 <= i < |es| ==> Undisturbed(ss[i], es[i], x) && (unharmed ==> Unharmed(ss[i], es[i], x))
    ensures Good(ss[|es|].jobs) && Budget(ss[|es|], x, n, Count(ss[0].trace, x), unharmed)
    decreases |es|
  {
    if es != [] {
      var k := |es| - 1;
      assert forall i :: 0 <= i < k ==> Step(ss[i], es[i], ss[i + 1]);
      assert ss[..|es|][k] == ss[k];
      IterationsExact(ss[..|es|], es[..k], x, n, unharmed);
      StepKeepsGood(ss[k], es[k], ss[|es|]);
      StepKeepsBudget(ss[k], es[k], ss[|es|], x, n, Count(ss[0].trace, x), unharmed);
    }
  }

  /** The timer a pass leaves behind is never early: a pass that starts when that many
      milliseconds have gone by finds a due job, or an expired one to remove. */
  lemma TimerFindsWork(s: Sched, now1: Time, now2: Time, fails: Script, t: Sched, fires: Time)
    requires PassStep(s, now1, now2, fails, t) && t.timer.Some?
    requires ClockTime(now2) && ClockTime(fires) && 0 < Micros(now2)
    requires Micros(now2) + 1000 * t.timer.value <= Micros(fires)
    ensures exists j :: j in Adjust(t.jobs, Charge(t.last, fires)) && (Due(j) || j.status == Expired)
  {
    ChargeClose(now2, fires);
    var j :| j in t.jobs && TimerJob(j) && t.timer.value == Clamp(j.remtime);
    var i :| 0 <= i < |t.jobs| && t.jobs[i] == j;
    assert Adjust(t.jobs, Charge(t.last, fires))[i] == AdjustJob(j, Charge(t.last, fires));
    assert AdjustJob(j, Charge(t.last, fires)) in Adjust(t.jobs, Charge(t.last, fires));
  }

  // Nor is it late: before that many milliseconds are charged no job is due, and without a timer never.
  lemma TimerInTime(s: Sched, now1: Time, now2: Time, fails: Script, t: Sched, ms: nat)
    requires PassStep(s, now1, now2, fails, t) && (t.timer.Some? ==> ms < t.timer.value)
    ensures forall j :: j in Adjust(t.jobs, ms) ==> !Due(j)
  {
    forall j | j in Adjust(t.jobs, ms) ensures !Due(j) {
      var i :| 0 <= i < |t.jobs| && Adjust(t.jobs, ms)[i] == j;
      assert t.jobs[i] in t.jobs;
    }
  }

  /** Resuming a job charges it the time since the last adjustment although it was suspended then: its
      status is written first. The configure command ends with a second adjustment. */
  lemma ResumeCharges(s: Sched, i: nat, now: Time, m: Sched, later: Time, t: Sched)
    requires Good(s.jobs) && Step(s, Set(i, SetStatus(Waiting, now)), m) && Step(m, Read(later), t)
    ensures var j := s.jobs[i];
            Find(t.jobs, j.id) ==
              Some(j.(status := Waiting, remtime := j.remtime - Charge(s.last, now) - Charge(now, later)))
  {
    ResumeStep(s, i, now, m);
    AdjustJobs(m.jobs, Charge(now, later), s.jobs[i].id);
  }

  lemma ResumeStep(s: Sched, i: nat, now: Time, m: Sched)
    requires Good(s.jobs) && Step(s, Set(i, SetStatus(Waiting, now)), m)
    ensures var j := s.jobs[i];
            Find(m.jobs, j.id) == Some(j.(status := Waiting, remtime := j.remtime - Charge(s.last, now)))
    ensures m.last == now
  {
    var j := s.jobs[i].(status := Waiting);
    UpdateJob(s.jobs, i, j, j.id);
    AdjustJobs(s.jobs[i := j], Charge(s.last, now), j.id);
    FindCount(m.jobs, j.id);
    KeepsClock(m, now, Find(m.jobs, j.id).value);
  }

  // As long as a job waits the time is not forgotten.
  lemma KeepsClock(m: Sched, now: Time, j: Job)
    requires Reschedules(m.jobs, now, m) && j in m.jobs && TimerJob(j)
    ensures m.last == now
  {
  }

  // ----- One pass, seen from one job -----

  // The place of the first job with id x stays the same.
  lemma {:induction false} FindPlace(jobs: seq<Job>, k: nat, fails: Script, x: nat) returns (i: nat)
    requires Find(jobs, x).Some?
    ensures i < |jobs| == |RunAll(jobs, k, fails)| && Find(jobs, x) == Some(jobs[i]) && jobs[i].id == x
    ensures Find(RunAll(jobs, k, fails), x) == Some(RunAll(jobs, k, fails)[i])
    decreases |jobs|
  {
    if jobs[0].id == x {
      i := 0;
      RunAllAt(jobs, k, fails, 0);
    } else {
      var next := if Due(jobs[0]) then k + 1 else k;
      var j := FindPlace(jobs[1..], next, fails, x);
      assert RunAll(jobs, k, fails)[1..] == RunAll(jobs[1..], next, fails);
      i := j + 1;
    }
  }

  lemma DuePlace(jobs: seq<Job>, i: nat)
    requires i < |jobs| && Due(jobs[i])
    ensures var p := |DueIds(jobs[..i])|; p < |DueIds(jobs)| && DueIds(jobs)[p] == jobs[i].id
  {
    assert jobs == jobs[..i] + ([jobs[i]] + jobs[i + 1..]);
    CollectAppend(jobs[..i], [jobs[i]] + jobs[i + 1..], DueId);
    CollectAppend([jobs[i]], jobs[i + 1..], DueId);
    CollectOne(jobs[i], DueId);
  }

  // The job is waiting and its time is up when ms more are charged.
  predicate DueAfter(j: Job, ms: nat) {
    j.status == Waiting && j.remtime <= ms
  }

  /** What becomes of a job in a pass. A job whose time is up is evaluated at place p of the trace; it is
      gone if that was its last iteration, or if it failed and no error script is given; else it waits
      for its interval again, less the time until the end of the pass, with one iteration less if these
      are counted. Every other job is gone if it had expired, is left alone if it is suspended, and is
      charged for the whole pass if it waits. */
  ghost predicate AfterPass(j: Job, before: nat, after: nat, failed: bool, r: Option<Job>) {
    if DueAfter(j, before) then
      if j.iterations == 1 || (failed && !j.errorCmd) then r.None?
      else r == Some(Job(j.id, j.interval, if j.iterations > 0 then j.iterations - 1 else 0, j.interval - after,
                         Waiting, j.errorCmd))
    else match j.status
         case Expired => r.None?
         case Suspended => r == Some(j)
         case Waiting => r == Some(Job(j.id, j.interval, j.iterations, j.remtime - before - after, Waiting, j.errorCmd))
         case Running => true
  }

  // The same for the run and sweep loops alone.
  lemma LoopsExactly(jobs: seq<Job>, k: nat, fails: Script, x: nat) returns (p: nat)
    requires Good(jobs) && Find(jobs, x).Some?
    ensures AfterPass(Find(jobs, x).value, 0, 0, fails(x, k + p), Find(Sweep(RunAll(jobs, k, fails)), x))
    ensures Due(Find(jobs, x).value) ==> p < |DueIds(jobs)| && DueIds(jobs)[p] == x
  {
    FindCount(jobs, x);
    var i := FindPlace(jobs, k, fails, x);
    RunAllAt(jobs, k, fails, i);
    RunJobs(jobs, k, fails, x);
    SweepJobs(RunAll(jobs, k, fails), x);
    p := |DueIds(jobs[..i])|;
    if Due(jobs[i]) { DuePlace(jobs, i); }
  }

  // The charges before and after the loops.
  lemma ChargedPass(j: Job, before: nat, after: nat, failed: bool, mid: Option<Job>, end: Option<Job>)
    requires AfterPass(AdjustJob(j, before), 0, 0, failed, mid)
    requires end == match mid case None => None case Some(k) => Some(AdjustJob(k, after))
    ensures AfterPass(j, before, after, failed, end)
  {
  }

  lemma PassExactly(s: Sched, now1: Time, now2: Time, fails: Script, t: Sched, x: nat) returns (p: nat)
    requires Good(s.jobs) && PassStep(s, now1, now2, fails, t) && Find(s.jobs, x).Some?
    ensures var j := Find(s.jobs, x).value;
            var before, after := Charge(s.last, now1), Charge(now1, now2);
            && AfterPass(j, before, after, fails(x, p), Find(t.jobs, x))
            && (DueAfter(j, before) ==> |s.trace| <= p < |t.trace| && t.trace[p] == x)
  {
    var before := Adjust(s.jobs, Charge(s.last, now1));
    AdjustGood(s.jobs, Charge(s.last, now1));
    AdjustJobs(s.jobs, Charge(s.last, now1), x);
    var q := LoopsExactly(before, |s.trace|, fails, x);
    var swept := Sweep(RunAll(before, |s.trace|, fails));
    AdjustJobs(swept, Charge(now1, now2), x);
    p := |s.trace| + q;
    ChargedPass(Find(s.jobs, x).value, Charge(s.last, now1), Charge(now1, now2), fails(x, p), Find(swept, x),
                Find(t.jobs, x));
  }

  // The event is a command on job x itself.
  ghost predicate Meant(s: Sched, e: Event, x: nat) {
    match e
    case Set(i, _) => i < |s.jobs| && s.jobs[i].id == x
    case Destroy(i) => i < |s.jobs| && s.jobs[i].id == x
    case _ => false
  }

  lemma SuspendedRests(s: Sched, e: Event, t: Sched, x: nat)
    requires Good(s.jobs) && Step(s, e, t) && Find(s.jobs, x).Some? && Find(s.jobs, x).value.status == Suspended
    requires !Meant(s, e, x)
    ensures Find(t.jobs, x) == Find(s.jobs, x)
  {
    match e
    case Pass(now1, now2, fails) => var _ := PassExactly(s, now1, now2, fails, t, x);
    case Create(j) =>
      FindCount(s.jobs, x);
      CountIn(Ids(s.jobs), x);
      AppendJob(s.jobs, j, x);
    case Set(i, c) =>
      UpdateJob(s.jobs, i, Changed(s.jobs[i], c), x);
      if c.SetStatus? { AdjustJobs(s.jobs[i := Changed(s.jobs[i], c)], Charge(s.last, c.now), x); }
    case Touch(now) => AdjustJobs(s.jobs, Charge(s.last, now), x);
    case Read(now) => AdjustJobs(s.jobs, Charge(s.last, now), x);
    case Destroy(i) => UpdateJob(s.jobs, i, Ended(s.jobs[i]), x);
  }

  /** Over every run a suspended job stays exactly as it is until a command is given to it: it is neither
      charged nor evaluated. */
  lemma {:induction false} SuspendedOverRuns(ss: seq<Sched>, es: seq<Event>, x: nat, k: nat)
    requires IsRun(ss, es) && Good(ss[0].jobs) && k <= |es|
    requires Find(ss[0].jobs, x).Some? && Find(ss[0].jobs, x).value.status == Suspended
    requires forall i :: 0 <= i < |es| ==> !Meant(ss[i], es[i], x)
    ensures Good(ss[k].jobs) && Find(ss[k].jobs, x) == Find(ss[0].jobs, x)
    decreases k
  {
    if k > 0 {
      SuspendedOverRuns(ss, es, x, k - 1);
      StepKeepsGood(ss[k - 1], es[k - 1], ss[k]);
      SuspendedRests(ss[k - 1], es[k - 1], ss[k], x);
    }
  }

  // ----- Drift -----

  // When an event adjusts the clock.
  function TimesOf(e: Event): seq<Time> {
    match e
    case Pass(now1, now2, _) => [now1, now2]
    case Create(_) => []
    case Set(_, c) => if c.SetStatus? then [c.now] else []
    case Touch(now) => [now]
    case Read(now) => [now]
    case Destroy(_) => []
  }

  function AllTimes(es: seq<Event>): seq<Time> {
    Collect(es, TimesOf)
  }

  // Job x is listed and not suspended.
  predicate Active(s: Sched, x: nat) {
    Find(s.jobs, x).Some? && Find(s.jobs, x).value.status != Suspended
  }

  function RemOf(s: Sched, x: nat): int
    requires Find(s.jobs, x).Some?
  {
    Find(s.jobs, x).value.remtime
  }

  // The event charges job x for its own adjustments, counted from the last one before.
  ghost predicate Charges(s: Sched, e: Event, t: Sched, x: nat)
    requires Find(s.jobs, x).Some? && Find(t.jobs, x).Some?
  {
    RemOf(t, x) == RemOf(s, x) - TotalCharge(s.last, TimesOf(e)) && t.last == LastOf(s.last, TimesOf(e))
  }

  lemma ActiveWaits(s: Sched, x: nat)
    requires Good(s.jobs) && Active(s, x)
    ensures Find(s.jobs, x).value in s.jobs && TimerJob(Find(s.jobs, x).value)
  {
    FindCount(s.jobs, x);
  }

  lemma OneCharge(last: Time, now: Time, later: Time)
    ensures TotalCharge(last, [now]) == Charge(last, now)
    ensures TotalCharge(last, [now, later]) == Charge(last, now) + Charge(now, later)
  {
    assert [now][1..] == [] && [now, later][1..] == [later] && [later][1..] == [];
    assert TotalCharge(now, [later]) == Charge(now, later) + TotalCharge(later, []);
  }

  lemma PassCharges(s: Sched, now1: Time, now2: Time, fails: Script, t: Sched, x: nat)
    requires Good(s.jobs) && Good(t.jobs) && PassStep(s, now1, now2, fails, t)
    requires Active(s, x) && Active(t, x) && Count(t.trace, x) == Count(s.trace, x)
    ensures Charges(s, Pass(now1, now2, fails), t, x)
  {
    var before := Adjust(s.jobs, Charge(s.last, now1));
    AdjustGood(s.jobs, Charge(s.last, now1));
    AdjustJobs(s.jobs, Charge(s.last, now1), x);
    var after := RunAll(before, |s.trace|, fails);
    RunJobs(before, |s.trace|, fails, x);
    RunsOnce(before, x);
    CountAppend(s.trace, DueIds(before), x);
    SweepJobs(after, x);
    AdjustJobs(Sweep(after), Charge(now1, now2), x);
    OneCharge(s.last, now1, now2);
    ActiveWaits(t, x);
    KeepsClock(t, now2, Find(t.jobs, x).value);
  }

  lemma SetCharges(s: Sched, i: nat, c: Change, t: Sched, x: nat)
    requires Good(s.jobs) && Good(t.jobs) && Step(s, Set(i, c), t) && Active(s, x) && Active(t, x)
    ensures Charges(s, Set(i, c), t, x)
  {
    UpdateJob(s.jobs, i, Changed(s.jobs[i], c), x);
    if c.SetStatus? {
      AdjustJobs(s.jobs[i := Changed(s.jobs[i], c)], Charge(s.last, c.now), x);
      OneCharge(s.last, c.now, c.now);
      ActiveWaits(t, x);
      KeepsClock(t, c.now, Find(t.jobs, x).value);
    }
  }

  lemma StepCharges(s: Sched, e: Event, t: Sched, x: nat)
    requires Good(s.jobs) && Step(s, e, t) && Active(s, x) && Active(t, x) && Count(t.trace, x) == Count(s.trace, x)
    ensures Charges(s, e, t, x)
  {
    StepKeepsGood(s, e, t);
    ActiveWaits(t, x);
    match e
    case Pass(now1, now2, fails) => PassCharges(s, now1, now2, fails, t, x);
    case Create(j) =>
      FindCount(s.jobs, x);
      CountIn(Ids(s.jobs), x);
      AppendJob(s.jobs, j, x);
      KeepsClock(t, s.last, Find(t.jobs, x).value);
    case Set(i, c) => SetCharges(s, i, c, t, x);
    case Touch(now) =>
      AdjustJobs(s.jobs, Charge(s.last, now), x);
      OneCharge(s.last, now, now);
      KeepsClock(t, now, Find(t.jobs, x).value);
    case Read(now) =>
      AdjustJobs(s.jobs, Charge(s.last, now), x);
      OneCharge(s.last, now, now);
    case Destroy(i) => UpdateJob(s.jobs, i, Ended(s.jobs[i]), x);
  }

  // Job x is listed all the time, never suspended, and not evaluated.
  ghost predicate Steady(ss: seq<Sched>, x: nat) {
    forall i :: 0 <= i < |ss| ==> Active(ss[i], x) && Count(ss[i].trace, x) == Count(ss[0].trace, x)
  }

  lemma {:induction false} RunCharges(ss: seq<Sched>, es: seq<Event>, x: nat, k: nat)
    requires IsRun(ss, es) && Good(ss[0].jobs) && Steady(ss, x) && k <= |es|
    ensures Good(ss[k].jobs) && Active(ss[0], x) && Active(ss[k], x)
    ensures var times := AllTimes(es[..k]);
            && RemOf(ss[k], x) == RemOf(ss[0], x) - TotalCharge(ss[0].last, times)
            && ss[k].last == LastOf(ss[0].last, times)
    decreases k
  {
    if k > 0 {
      RunCharges(ss, es, x, k - 1);
      assert Active(ss[k - 1], x) && Active(ss[k], x);
      StepKeepsGood(ss[k - 1], es[k - 1], ss[k]);
      StepCharges(ss[k - 1], es[k - 1], ss[k], x);
      assert es[..k] == es[..k - 1] + [es[k - 1]];
      CollectAppend(es[..k - 1], [es[k - 1]], TimesOf);
      CollectOne(es[k - 1], TimesOf);
      TotalChargeAppend(ss[0].last, AllTimes(es[..k - 1]), TimesOf(es[k - 1]));
    } else {
      assert es[..0] == [];
    }
  }

  /** Over every run in which a job stays listed, is never suspended and is not evaluated, what it is
      charged is never negative and differs from the time that really passed by less than one ms for
      each adjustment, whatever made it: a pass, a configure or create command, or a look at the time. */
  lemma DriftOverRuns(ss: seq<Sched>, es: seq<Event>, x: nat)
    requires IsRun(ss, es) && Good(ss[0].jobs) && Steady(ss, x) && Ascending(ss[0].last, AllTimes(es))
    ensures Active(ss[0], x) && Active(ss[|es|], x)
    ensures var charged, n := RemOf(ss[0], x) - RemOf(ss[|es|], x), |AllTimes(es)|;
            var passed := Micros(ss[|es|].last) - Micros(ss[0].last);
            0 <= charged && -999 * n <= 1000 * charged - passed <= 999 * n
  {
    assert es[..|es|] == es;
    RunCharges(ss, es, x, |es|);
    DriftBound(ss[0].last, AllTimes(es));
  }

  // ----- Commands -----

  // The events es lead from s to t.
  ghost predicate Reaches(s: Sched, es: seq<Event>, t: Sched) {
    exists ss :: IsRun(ss, es) && ss[0] == s && ss[|es|] == t
  }

  lemma ReachesStart(s: Sched)
    ensures Reaches(s, [], s)
  {
    assert IsRun([s], []);
  }

  lemma ReachesNext(s: Sched, es: seq<Event>, m: Sched, e: Event, t: Sched)
    requires Reaches(s, es, m) && Step(m, e, t)
    ensures Reaches(s, es + [e], t)
  {
    var ss :| IsRun(ss, es) && ss[0] == s && ss[|es|] == m;
    assert IsRun(ss + [t], es + [e]);
  }

  // The options up to the first that is refused.
  function Taken(opts: seq<Change>): seq<Change> {
    if opts == [] || !Accepted(opts[0]) then [] else [opts[0]] + Taken(opts[1..])
  }

  function SetEvents(i: nat, opts: seq<Change>): seq<Event> {
    seq(|opts|, k requires 0 <= k < |opts| => Set(i, opts[k]))
  }

  function Touched(c: Change): seq<Event> {
    if c.SetStatus? then [Touch(c.now)] else []
  }

  function TouchEvents(opts: seq<Change>): seq<Event> {
    Collect(opts, Touched)
  }

  // A new job with some options.
  function WithOptions(j: Job, opts: seq<Change>): Job {
    if opts == [] then j else Changed(WithOptions(j, opts[..|opts| - 1]), opts[|opts| - 1])
  }

  function NewJob(id: nat, opts: seq<Change>): Job {
    WithOptions(Job(id, 1000, 0, 0, Waiting, false), opts)
  }

  // What a configure command does, and what a create command does.
  function ConfigureEvents(i: nat, opts: seq<Change>, now: Time): seq<Event> {
    SetEvents(i, Taken(opts)) + if Taken(opts) == opts then [Read(now)] else []
  }

  function CreateEvents(id: nat, opts: seq<Change>, now: Time): seq<Event> {
    TouchEvents(Taken(opts)) + if Taken(opts) == opts then [Read(now), Create(NewJob(id, opts))] else []
  }

  lemma {:induction false} NewJobGood(id: nat, opts: seq<Change>)
    ensures var j := NewJob(id, opts); j.id == id && j.interval > 0 && j.remtime == 0 && j.status != Running
    decreases |opts|
  {
    if opts != [] { NewJobGood(id, opts[..|opts| - 1]); }
  }

  // The first k options have been accepted: they are the ones taken, unless more follow.
  lemma {:induction false} TakenUpTo(opts: seq<Change>, k: nat)
    requires k <= |opts| && forall i :: 0 <= i < k ==> Accepted(opts[i])
    requires k < |opts| ==> !Accepted(opts[k])
    ensures Taken(opts) == opts[..k]
    decreases |opts|
  {
    if k > 0 {
      TakenUpTo(opts[1..], k - 1);
      assert opts[..k] == [opts[0]] + opts[1..][..k - 1];
    }
  }

  // ----- Options -----

  /** An accepted option reads back as it was given, running as waiting, and no other has changed; a
      refused one changes nothing. The remaining time is not an option one can set. */
  lemma OptionReadsBack(j: Job, c: Change)
    ensures var k := Changed(j, c);
            && k.id == j.id && k.remtime == j.remtime
            && (Accepted(c) <==> !(c.SetInterval? && c.ms <= 0) && !(c.SetIterations? && c.n < 0))
            && (!Accepted(c) ==> k == j)
            && (c.SetStatus? ==> k.status == (if c.status == Running then Waiting else c.status))
            && (!c.SetStatus? ==> k.status == j.status)
            && (Accepted(c) && c.SetInterval? ==> k.interval == c.ms) && (!c.SetInterval? ==> k.interval == j.interval)
            && (Accepted(c) && c.SetIterations? ==> k.iterations == c.n)
            && (!c.SetIterations? ==> k.iterations == j.iterations)
            && (c.SetError? ==> k.errorCmd == c.b) && (!c.SetError? ==> k.errorCmd == j.errorCmd)
  {
  }

  /** A job created without options is due at once, for ever, every 1000 ms. */
  lemma DefaultJob(id: nat, s: Sched, m: Sched, now1: Time, now2: Time, fails: Script, t: Sched)
    requires Good(s.jobs) && Step(s, Create(NewJob(id, [])), m) && PassStep(m, now1, now2, fails, t)
    requires forall k :: !fails(id, k)
    ensures id in t.trace[|s.trace|..]
    ensures Find(t.jobs, id) == Some(Job(id, 1000, 0, 1000 - Charge(now1, now2), Waiting, false))
  {
    StepKeepsGood(s, Create(NewJob(id, [])), m);
    LastFound(s.jobs, NewJob(id, []));
    var p := PassExactly(m, now1, now2, fails, t, id);
    assert t.trace[|s.trace|..][p - |s.trace|] == id;
  }

  lemma {:induction false} LastFound(jobs: seq<Job>, j: Job)
    requires j.id !in Ids(jobs)
    ensures Find(jobs + [j], j.id) == Some(j)
  {
    if jobs == [] {
      assert jobs + [j] == [j];
    } else {
      assert (jobs + [j])[1..] == jobs[1..] + [j] && j.id !in Ids(jobs[1..]) && jobs[0].id in Ids(jobs);
      LastFound(jobs[1..], j);
    }
  }
}
