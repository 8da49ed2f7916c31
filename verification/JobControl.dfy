/**
 The scheduler itself (tnmJob.c): the job list and its restart loops, proved against JobSpec.
 trace records the jobs whose scripts have been evaluated, in order.
 */
module JobControls {
  import opened Vectors
  import opened CNumbers
  import opened JobSpec
  import opened JobRuns

  class JobControl {
    var jobs: seq<Job>
    var lastTime: Time
    var timer: Option<nat>
    var trace: seq<nat>

    constructor ()
      ensures State() == Sched([], NEVER, None, [])
    {
      jobs, lastTime, timer, trace := [], NEVER, None, [];
    }

    ghost function State(): Sched
      reads this
    {
      Sched(jobs, lastTime, timer, trace)
    }

    method AdjustTime(now: Time)
      modifies this`jobs, this`lastTime
      ensures jobs == Adjust(old(jobs), Charge(old(lastTime), now)) && lastTime == now
    {
      ghost var before := jobs;
      if lastTime.sec == 0 && lastTime.usec == 0 {
        lastTime := now;
        return;
      }
      var delta := (now.sec - lastTime.sec) * 1000 + TruncDiv(now.usec - lastTime.usec, 1000);
      lastTime := now;
      if delta <= 0 { return; }
      var i := 0;
      while i < |jobs|
        invariant 0 <= i <= |jobs| && |jobs| == |before| && lastTime == now
        invariant forall k :: 0 <= k < i ==> jobs[k] == AdjustJob(before[k], delta)
        invariant forall k :: i <= k < |jobs| ==> jobs[k] == before[k]
      {
        if jobs[i].status != Suspended {
          jobs := jobs[i := jobs[i].(remtime := jobs[i].remtime - delta)];
        }
        i := i + 1;
      }
    }

    /** Evaluates the first due job and starts over until none is due: every job that was due is
        evaluated exactly once, in list order. */
    method RunDue(fails: Script)
      requires Good(jobs)
      modifies this`jobs, this`trace
      ensures jobs == RunAll(old(jobs), |old(trace)|, fails)
      ensures trace == old(trace) + DueIds(old(jobs))
    {
      ghost var before, k, m, ids := jobs, |trace|, 0, [];
      FirstTurn(before, k, fails);
      var i: nat := FirstDue();
      while i < |jobs|
        invariant HadTurns(before, k, fails, m, jobs, ids)
        invariant trace == old(trace) + ids
        invariant IsFirstDue(jobs, i)
        decreases |before| - m
      {
        m, ids := TakeTurn(i, fails, before, k, m, ids, old(trace));
        i := FirstDue();
      }
      NoTurnLeft(before, k, fails, m, jobs, ids);
    }

    method TakeTurn(i: nat, fails: Script, ghost before: seq<Job>, ghost k: nat, ghost m: nat, ghost ids: seq<nat>,
                    ghost earlier: seq<nat>)
      returns (ghost m': nat, ghost ids': seq<nat>)
      requires Good(before) && HadTurns(before, k, fails, m, jobs, ids) && i < |jobs| && IsFirstDue(jobs, i)
      requires trace == earlier + ids && |earlier| == k
      modifies this`jobs, this`trace
      ensures m < m' <= |before| && HadTurns(before, k, fails, m', jobs, ids') && trace == earlier + ids'
    {
      Turn(before, k, fails, m, i, jobs, ids);
      Assoc(earlier, ids, [jobs[i].id]);
      m', ids' := i + 1, ids + [jobs[i].id];
      RunJob(i, fails);
    }

    // One scan of the list from its start.
    method FirstDue() returns (i: nat)
      ensures IsFirstDue(jobs, i)
    {
      i := 0;
      while i < |jobs| && !(jobs[i].status == Waiting && jobs[i].remtime <= 0)
        invariant i <= |jobs| && forall j :: 0 <= j < i ==> !Due(jobs[j])
      {
        i := i + 1;
      }
    }

    method RunJob(i: nat, fails: Script)
      requires i < |jobs| && Due(jobs[i])
      modifies this`jobs, this`trace
      ensures jobs == old(jobs)[i := AfterRun(old(jobs)[i], fails(old(jobs)[i].id, |old(trace)|))]
      ensures trace == old(trace) + [old(jobs)[i].id]
      ensures var j, failed := old(jobs)[i], fails(old(jobs)[i].id, |old(trace)|);
              && jobs[i].remtime == j.interval == jobs[i].interval && jobs[i].errorCmd == j.errorCmd
              && jobs[i].iterations == (if j.iterations > 0 then j.iterations - 1 else 0)
              && jobs[i].status == (if j.iterations == 1 || (failed && !j.errorCmd) then Expired else Waiting)
    {
      var j := jobs[i].(status := Running);
      jobs := jobs[i := j];
      var failed := fails(j.id, |trace|);
      trace := trace + [j.id];
      if failed && !j.errorCmd { j := j.(status := Expired); }
      if j.status == Running { j := j.(status := Waiting); }
      j := j.(remtime := j.interval);
      if j.iterations > 0 {
        j := j.(iterations := j.iterations - 1);
        if j.iterations == 0 { j := j.(status := Expired); }
      }
      jobs := jobs[i := j];
    }

    method RemoveExpired()
      modifies this`jobs
      ensures jobs == Sweep(old(jobs))
    {
      ghost var before := jobs;
      var i := 0;
      while i < |jobs|
        invariant 0 <= i <= |jobs|
        invariant Sweep(jobs) == Sweep(before)
        invariant forall j :: 0 <= j < i ==> jobs[j].status != Expired
        decreases |jobs|, |jobs| - i
      {
        if jobs[i].status == Expired {
          SweepCut(jobs, i);
          jobs := jobs[..i] + jobs[i + 1..];
          i := 0;
        } else {
          i := i + 1;
        }
      }
      SweepNothing(jobs);
    }

    method NextSchedule()
      modifies this`timer, this`lastTime
      ensures Reschedules(jobs, old(lastTime), State())
    {
      var ms := -1;
      var i := 0;
      while i < |jobs|
        invariant 0 <= i <= |jobs| && ms >= -1
        invariant IsTimer(jobs[..i], if ms < 0 then None else Some(ms))
      {
        assert jobs[..i + 1] == jobs[..i] + [jobs[i]];
        if jobs[i].status == Waiting || jobs[i].status == Expired {
          if ms < 0 || jobs[i].remtime < ms {
            ms := if jobs[i].remtime < 0 then 0 else jobs[i].remtime;
            assert jobs[i] in jobs[..i + 1] && TimerJob(jobs[i]) && ms == Clamp(jobs[i].remtime);
          }
        }
        i := i + 1;
      }
      assert jobs[..i] == jobs;
      if ms < 0 {
        timer, lastTime := None, NEVER;
      } else {
        timer := Some(ms);
      }
    }

    method Schedule(now1: Time, now2: Time, fails: Script)
      requires Good(jobs)
      modifies this
      ensures Step(old(State()), Pass(now1, now2, fails), State()) && Good(jobs)
    {
      AdjustGood(jobs, Charge(lastTime, now1));
      AdjustTime(now1);
      RunDue(fails);
      RemoveExpired();
      AdjustTime(now2);
      NextSchedule();
      StepKeepsGood(old(State()), Pass(now1, now2, fails), State());
    }

    // One option of a listed job.
    method SetOption(i: nat, c: Change) returns (ok: bool)
      requires Good(jobs) && i < |jobs|
      modifies this
      ensures ok <==> Accepted(c)
      ensures ok <==> !(c.SetInterval? && c.ms <= 0) && !(c.SetIterations? && c.n < 0)
      ensures Step(old(State()), Set(i, c), State()) && Good(jobs) && |jobs| == |old(jobs)|
      ensures !ok ==> State() == old(State())
    {
      ok := true;
      match c {
        case SetStatus(st, now) =>
          // The status is written before the clock is adjusted.
          jobs := jobs[i := jobs[i].(status := if st == Running then Waiting else st)];
          AdjustTime(now);
          NextSchedule();
        case SetInterval(ms) =>
          if ms <= 0 { ok := false; } else { jobs := jobs[i := jobs[i].(interval := ms)]; }
        case SetIterations(n) =>
          if n < 0 { ok := false; } else { jobs := jobs[i := jobs[i].(iterations := n)]; }
        case SetError(b) =>
          jobs := jobs[i := jobs[i].(errorCmd := b)];
      }
      StepKeepsGood(old(State()), Set(i, c), State());
    }

    // One option of a job that is not listed yet: the status option still adjusts the others.
    method SetNewOption(j: Job, c: Change) returns (k: Job, ok: bool)
      requires Good(jobs)
      modifies this
      ensures (ok <==> Accepted(c)) && k == Changed(j, c) && Ids(jobs) == Ids(old(jobs)) && Good(jobs)
      ensures |jobs| == |old(jobs)|
      ensures if c.SetStatus? then Step(old(State()), Touch(c.now), State()) else State() == old(State())
    {
      k, ok := Changed(j, c), Accepted(c);
      if c.SetStatus? {
        AdjustJobs(jobs, Charge(lastTime, c.now), 0);
        AdjustTime(c.now);
        NextSchedule();
        StepKeepsGood(old(State()), Touch(c.now), State());
      }
    }

    /** Sets the options in order up to the first that is refused; if none is, listing the options
        looks at the remaining time. */
    method Configure(i: nat, opts: seq<Change>, now: Time) returns (ok: bool)
      requires Good(jobs) && i < |jobs|
      modifies this
      ensures ok <==> Taken(opts) == opts
      ensures ok <==> forall k :: 0 <= k < |opts| ==> Accepted(opts[k])
      ensures |jobs| == |old(jobs)| && (ok ==> lastTime == now)
      ensures Good(jobs) && Reaches(old(State()), ConfigureEvents(i, opts, now), State())
    {
      ghost var s := State();
      ok := true;
      var k := 0;
      ReachesStart(s);
      while k < |opts| && ok
        invariant 0 <= k <= |opts| && Good(jobs) && i < |jobs| == |old(jobs)|
        invariant forall m :: 0 <= m < k ==> Accepted(opts[m])
        invariant !ok ==> k < |opts| && !Accepted(opts[k])
        invariant Reaches(s, SetEvents(i, opts[..k]), State())
        decreases |opts| - k, ok
      {
        ghost var m := State();
        ok := SetOption(i, opts[k]);
        if ok {
          ReachesNext(s, SetEvents(i, opts[..k]), m, Set(i, opts[k]), State());
          assert SetEvents(i, opts[..k + 1]) == SetEvents(i, opts[..k]) + [Set(i, opts[k])];
          k := k + 1;
        }
      }
      TakenUpTo(opts, k);
      assert SetEvents(i, Taken(opts)) + [] == SetEvents(i, Taken(opts));
      if ok {
        ghost var m := State();
        AdjustTime(now);
        ReachesNext(s, SetEvents(i, opts[..k]), m, Read(now), State());
        StepKeepsGood(m, Read(now), State());
      }
    }

    /** A new job goes to the end of the list, due at once unless its status says otherwise. A refused
        option ends the command before. */
    method CreateJob(id: nat, opts: seq<Change>, now: Time) returns (ok: bool)
      requires Good(jobs) && id !in Ids(jobs)
      modifies this
      ensures ok <==> Taken(opts) == opts
      ensures ok <==> forall k :: 0 <= k < |opts| ==> Accepted(opts[k])
      ensures if ok then |jobs| == |old(jobs)| + 1 && jobs[|jobs| - 1] == NewJob(id, opts) else |jobs| == |old(jobs)|
      ensures Good(jobs) && Reaches(old(State()), CreateEvents(id, opts, now), State())
    {
      ghost var s := State();
      var j := Job(id, 1000, 0, 0, Waiting, false);
      var k := 0;
      ok := true;
      ReachesStart(s);
      while k < |opts| && ok
        invariant 0 <= k <= |opts| && Good(jobs) && Ids(jobs) == Ids(old(jobs)) && |jobs| == |old(jobs)|
        invariant forall m :: 0 <= m < k ==> Accepted(opts[m])
        invariant !ok ==> k < |opts| && !Accepted(opts[k])
        invariant ok ==> j == NewJob(id, opts[..k])
        invariant Reaches(s, TouchEvents(opts[..k]), State())
        decreases |opts| - k, ok
      {
        j, ok := NewOption(id, j, opts, k, s);
        if ok { k := k + 1; }
      }
      TakenUpTo(opts, k);
      assert TouchEvents(Taken(opts)) + [] == TouchEvents(Taken(opts));
      if ok {
        assert opts[..k] == opts;
        NewJobGood(id, opts);
        AddJob(j, opts, now, s);
      }
    }

    method NewOption(id: nat, j: Job, opts: seq<Change>, k: nat, ghost s: Sched) returns (n: Job, ok: bool)
      requires Good(jobs) && k < |opts| && j == NewJob(id, opts[..k]) && Reaches(s, TouchEvents(opts[..k]), State())
      modifies this
      ensures Good(jobs) && Ids(jobs) == Ids(old(jobs)) && |jobs| == |old(jobs)| && (ok <==> Accepted(opts[k]))
      ensures ok ==> n == NewJob(id, opts[..k + 1])
      ensures Reaches(s, TouchEvents(opts[..if ok then k + 1 else k]), State())
    {
      ghost var m := State();
      n, ok := SetNewOption(j, opts[k]);
      assert opts[..k + 1] == opts[..k] + [opts[k]] && opts[..k + 1][..k] == opts[..k];
      CollectAppend(opts[..k], [opts[k]], Touched);
      CollectOne(opts[k], Touched);
      if opts[k].SetStatus? {
        ReachesNext(s, TouchEvents(opts[..k]), m, Touch(opts[k].now), State());
      } else {
        assert TouchEvents(opts[..k]) + [] == TouchEvents(opts[..k]);
      }
    }

    method AddJob(j: Job, ghost opts: seq<Change>, now: Time, ghost s: Sched)
      requires Good(jobs) && j.id !in Ids(jobs) && j == NewJob(j.id, opts)
      requires Reaches(s, TouchEvents(opts), State())
      modifies this
      ensures Good(jobs) && Reaches(s, TouchEvents(opts) + [Read(now), Create(j)], State())
      ensures |jobs| == |old(jobs)| + 1 && jobs[|jobs| - 1] == j
    {
      ghost var m, es := State(), TouchEvents(opts);
      NewJobGood(j.id, opts);
      AdjustJobs(jobs, Charge(lastTime, now), 0);
      AdjustTime(now);
      StepKeepsGood(m, Read(now), State());
      ReachesNext(s, es, m, Read(now), State());
      m := State();
      jobs := jobs + [j];
      NextSchedule();
      StepKeepsGood(m, Create(j), State());
      ReachesNext(s, es + [Read(now)], m, Create(j), State());
      assert es + [Read(now)] + [Create(j)] == es + [Read(now), Create(j)];
    }
  }

  // ----- The restart loops -----

  lemma {:induction false} RunAllAppend(a: seq<Job>, b: seq<Job>, k: nat, fails: Script)
    ensures RunAll(a + b, k, fails) == RunAll(a, k, fails) + RunAll(b, k + |DueIds(a)|, fails)
    decreases |a|
  {
    if a == [] {
      assert a + b == b;
    } else {
      var k' := if Due(a[0]) then k + 1 else k;
      var j := if Due(a[0]) then [AfterRun(a[0], fails(a[0].id, k))] else [a[0]];
      RunAllAppend(a[1..], b, k', fails);
      assert k' + |DueIds(a[1..])| == k + |DueIds(a)|;
      calc {
        RunAll(a + b, k, fails);
        { assert (a + b)[0] == a[0] && (a + b)[1..] == a[1..] + b; }
        j + RunAll(a[1..] + b, k', fails);
        j + (RunAll(a[1..], k', fails) + RunAll(b, k + |DueIds(a)|, fails));
        (j + RunAll(a[1..], k', fails)) + RunAll(b, k + |DueIds(a)|, fails);
      }
    }
  }

  lemma {:induction false} RunAllIdle(a: seq<Job>, k: nat, fails: Script)
    requires forall j :: 0 <= j < |a| ==> !Due(a[j])
    ensures RunAll(a, k, fails) == a && DueIds(a) == []
    decreases |a|
  {
    if a != [] { RunAllIdle(a[1..], k, fails); }
  }

  // A job that has just had its turn is not due: the jobs before m never run again.
  lemma PrefixSettled(before: seq<Job>, k: nat, fails: Script, m: nat)
    requires Good(before) && m <= |before|
    ensures |RunAll(before[..m], k, fails)| == m
    ensures forall j :: 0 <= j < m ==> !Due(RunAll(before[..m], k, fails)[j])
  {
    if m > 0 { RunAllAt(before[..m], k, fails, 0); }
    forall j | 0 <= j < m ensures !Due(RunAll(before[..m], k, fails)[j]) {
      RunAllAt(before[..m], k, fails, j);
      assert before[..m][j] == before[j] && before[j] in before;
    }
  }

  lemma SkipIdle(before: seq<Job>, k: nat, fails: Script, m: nat, i: nat)
    requires m <= i <= |before| && forall j :: m <= j < i ==> !Due(before[j])
    ensures RunAll(before[..i], k, fails) + before[i..] == RunAll(before[..m], k, fails) + before[m..]
    ensures DueIds(before[..i]) == DueIds(before[..m])
  {
    Slices(before, m, i);
    RunAllIdle(before[m..i], k + |DueIds(before[..m])|, fails);
    RunAllAppend(before[..m], before[m..i], k, fails);
    CollectAppend(before[..m], before[m..i], DueId);
    Assoc(RunAll(before[..m], k, fails), before[m..i], before[i..]);
    assert DueIds(before[..m]) + [] == DueIds(before[..m]);
  }

  lemma RunOne(before: seq<Job>, k: nat, fails: Script, i: nat)
    requires i < |before| && Due(before[i]) && |RunAll(before[..i], k, fails)| == i
    ensures var done := AfterRun(before[i], fails(before[i].id, k + |DueIds(before[..i])|));
            RunAll(before[..i + 1], k, fails) + before[i + 1..] ==
              (RunAll(before[..i], k, fails) + before[i..])[i := done]
    ensures DueIds(before[..i + 1]) == DueIds(before[..i]) + [before[i].id]
  {
    assert before[..i + 1] == before[..i] + [before[i]];
    RunAllAppend(before[..i], [before[i]], k, fails);
    CollectAppend(before[..i], [before[i]], DueId);
    assert [before[i]][1..] == [];
    assert before[i..] == [before[i]] + before[i + 1..];
  }

  // The jobs before m have had their turn: ids are those that were evaluated.
  ghost predicate HadTurns(before: seq<Job>, k: nat, fails: Script, m: nat, jobs: seq<Job>, ids: seq<nat>) {
    m <= |before| && jobs == RunAll(before[..m], k, fails) + before[m..] && ids == DueIds(before[..m])
  }

  ghost predicate IsFirstDue(jobs: seq<Job>, i: nat) {
    i <= |jobs| && (i < |jobs| ==> Due(jobs[i])) && forall j :: 0 <= j < i ==> !Due(jobs[j])
  }

  lemma FirstTurn(before: seq<Job>, k: nat, fails: Script)
    ensures HadTurns(before, k, fails, 0, before, [])
  {
    assert before[..0] == [] && [] + before[0..] == before;
  }

  // The first due job at or after m has its turn next.
  lemma Turn(before: seq<Job>, k: nat, fails: Script, m: nat, i: nat, jobs: seq<Job>, ids: seq<nat>)
    requires Good(before) && HadTurns(before, k, fails, m, jobs, ids)
    requires i < |jobs| && IsFirstDue(jobs, i)
    ensures m <= i < |before| == |jobs|
    ensures var done := AfterRun(jobs[i], fails(jobs[i].id, k + |ids|));
            HadTurns(before, k, fails, i + 1, jobs[i := done], ids + [jobs[i].id])
  {
    PrefixSettled(before, k, fails, m);
    assert forall j :: m <= j < |before| ==> jobs[j] == before[j];
    SkipIdle(before, k, fails, m, i);
    PrefixSettled(before, k, fails, i);
    RunOne(before, k, fails, i);
  }

  lemma NoTurnLeft(before: seq<Job>, k: nat, fails: Script, m: nat, jobs: seq<Job>, ids: seq<nat>)
    requires Good(before) && HadTurns(before, k, fails, m, jobs, ids)
    requires IsFirstDue(jobs, |jobs|)
    ensures jobs == RunAll(before, k, fails) && ids == DueIds(before)
  {
    PrefixSettled(before, k, fails, m);
    assert forall j :: m <= j < |before| ==> jobs[j] == before[j];
    SkipIdle(before, k, fails, m, |before|);
    assert before[..|before|] == before && before[|before|..] == [];
  }

  lemma SweepCut(jobs: seq<Job>, i: nat)
    requires i < |jobs| && jobs[i].status == Expired
    ensures Sweep(jobs[..i] + jobs[i + 1..]) == Sweep(jobs)
  {
    CollectAppend(jobs[..i], jobs[i + 1..], Swept);
    CollectAppend(jobs[..i], jobs[i..], Swept);
    assert jobs == jobs[..i] + jobs[i..] && jobs[i..][1..] == jobs[i + 1..];
  }

  lemma {:induction false} SweepNothing(jobs: seq<Job>)
    requires forall j :: 0 <= j < |jobs| ==> jobs[j].status != Expired
    ensures Sweep(jobs) == jobs
  {
    if jobs != [] { SweepNothing(jobs[1..]); }
  }
}
