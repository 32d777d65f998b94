/**
 * AZ::LegacyJobExecutor: a count of outstanding jobs and completion fences,
 * plus one optional post job started when the count drops to zero.
 *
 * Every locked region of the source is one atomic step here. The job system
 * that runs started jobs is the class JobSystem: `pending` holds the jobs that
 * have been started and whose Process has not run yet, each carrying the
 * executor it reports its completion to.
 */
module Jobs {
  import opened Wrappers

  /** Identifies the process function a job runs; what that function does is outside the model. */
  type WorkId = nat

  /** A JobFunctionExecutorHelper: a process function and the executor it reports to. */
  datatype Job = Job(work: WorkId, executor: LegacyJobExecutor)

  /** The number of jobs in `jobs` that report to `e`. */
  ghost function CountFor(jobs: seq<Job>, e: LegacyJobExecutor): nat
  {
    if jobs == [] then 0
    else (if jobs[0].executor == e then 1 else 0) + CountFor(jobs[1..], e)
  }

  /** `s` without its element at index `i`. */
  function Removed<T>(s: seq<T>, i: nat): seq<T>
    requires i < |s|
  {
    s[..i] + s[i + 1..]
  }

  lemma {:induction false} CountForConcat(a: seq<Job>, b: seq<Job>, e: LegacyJobExecutor)
    ensures CountFor(a + b, e) == CountFor(a, e) + CountFor(b, e)
    decreases |a|
  {
    if a == [] {
      assert a + b == b;
    } else {
      assert (a + b)[1..] == a[1..] + b;
      CountForConcat(a[1..], b, e);
    }
  }

  lemma CountForAppend(s: seq<Job>, j: Job, e: LegacyJobExecutor)
    ensures CountFor(s + [j], e) == CountFor(s, e) + (if j.executor == e then 1 else 0)
  {
    CountForConcat(s, [j], e);
    assert [j][1..] == [];
  }

  lemma CountForRemoved(s: seq<Job>, i: nat, e: LegacyJobExecutor)
    requires i < |s|
    ensures CountFor(Removed(s, i), e) + (if s[i].executor == e then 1 else 0) == CountFor(s, e)
  {
    assert s == s[..i] + ([s[i]] + s[i + 1..]);
    CountForConcat(s[..i], [s[i]] + s[i + 1..], e);
    CountForConcat([s[i]], s[i + 1..], e);
    CountForConcat(s[..i], s[i + 1..], e);
    assert [s[i]][1..] == [];
  }

  lemma {:induction false} CountForAbsent(s: seq<Job>, e: LegacyJobExecutor)
    requires forall j :: j in s ==> j.executor != e
    ensures CountFor(s, e) == 0
    decreases |s|
  {
    if s != [] {
      assert s[0] in s;
      assert forall j :: j in s[1..] ==> j in s;
      CountForAbsent(s[1..], e);
    }
  }

  /** A job reporting to `e` is pending exactly when the count says so. */
  lemma {:induction false} CountForPositive(s: seq<Job>, e: LegacyJobExecutor)
    ensures CountFor(s, e) > 0 <==> exists k :: 0 <= k < |s| && s[k].executor == e
    decreases |s|
  {
    if s != [] {
      CountForPositive(s[1..], e);
      if s[0].executor != e && CountFor(s, e) > 0 {
        var k :| 0 <= k < |s[1..]| && s[1..][k].executor == e;
        assert s[k + 1].executor == e;
      }
      if exists k :: 0 <= k < |s| && s[k].executor == e {
        var k :| 0 <= k < |s| && s[k].executor == e;
        if k > 0 { assert s[1..][k - 1].executor == e; }
      }
    }
  }

  /**
   * The job system: Job::Start hands a job over, and some worker later runs
   * the job's Process.
   */
  class JobSystem {
    /** Started jobs whose Process has not run yet, in the order they were started. */
    var pending: seq<Job>
    /** The process functions that have run, in order. */
    var ran: seq<WorkId>
    /** The executors whose jobs this system runs. */
    ghost var executors: set<LegacyJobExecutor>

    constructor()
      ensures pending == [] && ran == [] && executors == {}
    {
      pending, ran, executors := [], [], {};
    }

    /** What `e` is waiting for: its pending jobs and its unpopped fences. */
    ghost function Outstanding(e: LegacyJobExecutor): nat
      reads this`pending, e
    {
      CountFor(pending, e) + e.fences
    }

    /**
     * Every pending job and every post job reports to a known executor, and
     * every executor's count is what it is waiting for, except that `owing`
     * (if not null) counts one completion that is being reported right now.
     */
    ghost predicate Consistent(owing: LegacyJobExecutor?)
      reads this`pending, this`executors, executors
    {
      && (forall j :: j in pending ==> j.executor in executors)
      && (forall e :: e in executors && e.postJob.Some? ==> e.postJob.value.executor in executors)
      && (forall e :: e in executors ==> e.jobCount == Outstanding(e) + (if e == owing then 1 else 0))
    }

    ghost predicate Valid()
      reads this`pending, this`executors, executors
    {
      Consistent(null)
    }

    /** The executors whose post-job slot is filled. */
    ghost function Slots(): set<LegacyJobExecutor>
      reads this`executors, executors
    {
      set e | e in executors && e.postJob.Some?
    }

    /** The jobs still to run: the pending ones and the post jobs not yet started. */
    ghost function Work(): nat
      reads this`pending, this`executors, executors
    {
      |pending| + |Slots()|
    }

    /** Starts tracking a newly constructed executor. */
    ghost method Register(e: LegacyJobExecutor)
      requires Valid()
      requires e.jobCount == 0 && e.fences == 0 && e.postJob == None
      modifies this
      ensures Valid() && executors == old(executors) + {e}
      ensures pending == old(pending) && ran == old(ran)
    {
      if e !in executors {
        CountForAbsent(pending, e);
      }
      executors := executors + {e};
    }

    /** Job::Start: the job is handed to the workers. */
    method Start(job: Job)
      modifies this`pending
      ensures pending == old(pending) + [job]
    {
      pending := pending + [job];
    }

    /**
     * A worker runs the `i`-th started job: JobFunctionExecutorHelper::Process
     * runs the process function and then reports exactly one completion to
     * the job's executor.
     */
    method Process(i: nat) returns (job: Job)
      requires Valid() && i < |pending|
      modifies this`pending, this`ran, executors`jobCount, executors`postJob
      ensures Valid()
      ensures job == old(pending[i]) && ran == old(ran) + [job.work]
      ensures Work() < old(Work())
      ensures old(job.executor.jobCount) == 1 && old(job.executor.postJob).Some? ==>
                // the last outstanding job finished: its post job is started,
                // and nothing else of the executor was left pending or fenced
                && job.executor.postJob == None
                && pending == Removed(old(pending), i) + [old(job.executor.postJob).value]
                && CountFor(Removed(old(pending), i), job.executor) == 0 && job.executor.fences == 0
      ensures !(old(job.executor.jobCount) == 1 && old(job.executor.postJob).Some?) ==>
                pending == Removed(old(pending), i) && job.executor.postJob == old(job.executor.postJob)
      ensures forall e :: e in executors && e != job.executor ==> e.postJob == old(e.postJob)
    {
      job := Take(i);
      Report(job.executor);
    }

    /** The worker reports one completion to `e`, which is owed it. */
    method Report(e: LegacyJobExecutor)
      requires e in executors && Consistent(e)
      modifies this`pending, executors`jobCount, executors`postJob
      ensures Valid()
      ensures old(e.jobCount) == 1 && old(e.postJob).Some? ==>
                && e.postJob == None && pending == old(pending) + [old(e.postJob).value]
                && CountFor(old(pending), e) == 0 && e.fences == 0
      ensures !(old(e.jobCount) == 1 && old(e.postJob).Some?) ==>
                pending == old(pending) && e.postJob == old(e.postJob)
      ensures Work() == old(Work())
      ensures forall x :: x in executors && x != e ==> x.postJob == old(x.postJob)
    {
      ghost var slots := Slots();
      assert e.jobCount == CountFor(pending, e) + e.fences + 1;
      e.JobCompleteUpdate(this);
      assert forall x :: x in executors && x != e ==> x.postJob == old(x.postJob);
      SlotsFromSnapshot(this, slots, e);
      if old(e.jobCount) == 1 && old(e.postJob).Some? {
        assert |Slots()| == |slots| - 1 && |pending| == |old(pending)| + 1;
      } else {
        assert Slots() == slots && pending == old(pending);
      }
    }

    /**
     * A worker takes the `i`-th started job off the queue and runs its process
     * function; the job's executor is now owed one completion.
     */
    method Take(i: nat) returns (job: Job)
      requires Valid() && i < |pending|
      modifies this`pending, this`ran
      ensures job == old(pending[i]) && pending == Removed(old(pending), i)
      ensures ran == old(ran) + [job.work]
      ensures job.executor in executors && Consistent(job.executor)
      ensures Work() == old(Work()) - 1
    {
      job := pending[i];
      ran := ran + [job.work];
      ghost var before := pending;
      pending := Removed(pending, i);
      forall e | e in executors
        ensures e.jobCount == Outstanding(e) + (if e == job.executor then 1 else 0)
      {
        CountForRemoved(before, i, e);
      }
      assert forall j :: j in pending ==> j in before;
    }
  }

  /** The filled slots, given a snapshot that still holds for every executor but `e`. */
  lemma SlotsFromSnapshot(jobs: JobSystem, slots: set<LegacyJobExecutor>, e: LegacyJobExecutor)
    requires slots <= jobs.executors && e in jobs.executors
    requires forall x :: x in jobs.executors && x != e ==> (x in slots <==> x.postJob.Some?)
    ensures e in slots && e.postJob == None ==> jobs.Slots() == slots - {e}
    ensures (e in slots <==> e.postJob.Some?) ==> jobs.Slots() == slots
  {
  }

  /**
   * JobFunctionExecutorHelper::StartOnExecutor: a job (in practice a post job)
   * is started on the executor it was created for.
   */
  method StartOnExecutor(job: Job, jobs: JobSystem)
    requires jobs.Valid() && job.executor in jobs.executors
    modifies job.executor`jobCount, jobs`pending
    ensures jobs.Valid() && jobs.executors == old(jobs.executors) && jobs.ran == old(jobs.ran)
    ensures jobs.pending == old(jobs.pending) + [job]
    ensures job.executor.jobCount == old(job.executor.jobCount) + 1
    ensures job.executor.postJob == old(job.executor.postJob)
    ensures job.executor.fences == old(job.executor.fences)
  {
    job.executor.StartJobInternal(job, jobs);
  }

  class LegacyJobExecutor {
    /** m_jobCount: started jobs not yet complete plus pushed completion fences. */
    var jobCount: nat
    /** m_postJob: the job to start when the count next drops to zero. */
    var postJob: Option<Job>
    /** Completion fences pushed and not yet popped. */
    ghost var fences: nat

    constructor()
      ensures jobCount == 0 && postJob == None && fences == 0
    {
      jobCount, postJob, fences := 0, None, 0;
    }

    /** Are there presently jobs in flight (queued or running) or fences pushed? */
    function IsRunning(): (r: bool)
      reads this
      ensures r <==> jobCount > 0
    {
      jobCount != 0
    }

    /** The executor a filled post-job slot will start its job on. */
    function PostTarget(): set<LegacyJobExecutor>
      reads this
    {
      if postJob.Some? then {postJob.value.executor} else {}
    }

    /** StartJob: wraps `work` in a job reporting here and starts it. */
    method StartJob(work: WorkId, jobs: JobSystem)
      requires jobs.Valid() && this in jobs.executors
      modifies this`jobCount, jobs`pending
      ensures jobs.Valid() && jobs.executors == old(jobs.executors) && jobs.ran == old(jobs.ran)
      ensures jobCount == old(jobCount) + 1
      ensures jobs.pending == old(jobs.pending) + [Job(work, this)]
      ensures postJob == old(postJob) && fences == old(fences)
    {
      StartJobInternal(Job(work, this), jobs);
    }

    /** The count is raised by one before the job is handed to the job system. */
    method StartJobInternal(job: Job, jobs: JobSystem)
      requires job.executor == this
      requires jobs.Valid() && this in jobs.executors
      modifies this`jobCount, jobs`pending
      ensures jobs.Valid()
      ensures jobCount == old(jobCount) + 1
      ensures jobs.pending == old(jobs.pending) + [job]
    {
      jobCount := jobCount + 1;
      jobs.Start(job);
      forall e | e in jobs.executors
        ensures CountFor(jobs.pending, e) == CountFor(old(jobs.pending), e) + (if e == this then 1 else 0)
      {
        CountForAppend(old(jobs.pending), job, e);
      }
    }

    /**
     * SetPostJob: the slot must be empty and no job started yet; the count is
     * not raised until the post job itself is started.
     */
    method SetPostJob(postJobExecutor: LegacyJobExecutor, work: WorkId, ghost jobs: JobSystem)
      requires postJob == None && jobCount == 0
      requires jobs.Valid() && this in jobs.executors && postJobExecutor in jobs.executors
      modifies this`postJob
      ensures postJob == Some(Job(work, postJobExecutor))
      ensures jobs.Valid()
    {
      postJob := Some(Job(work, postJobExecutor));
    }

    /** ClearPostJob: the post job is dropped without being started. */
    method ClearPostJob(ghost jobs: JobSystem)
      requires jobs.Valid() && this in jobs.executors
      modifies this`postJob
      ensures postJob == None
      ensures jobs.Valid()
    {
      postJob := None;
    }

    /** Reset only checks that nothing is in flight. */
    method Reset()
      requires !IsRunning()
      ensures jobCount == 0
    {
    }

    /** PushCompletionFence: WaitForCompletion will also wait for the matching pop. */
    method PushCompletionFence(ghost jobs: JobSystem)
      requires jobs.Valid() && this in jobs.executors
      modifies this`jobCount, this`fences
      ensures jobCount == old(jobCount) + 1 && fences == old(fences) + 1
      ensures jobs.Valid()
    {
      jobCount := jobCount + 1;
      fences := fences + 1;
    }

    /** PopCompletionFence: the same single-decrement path as a finished job. */
    method PopCompletionFence(jobs: JobSystem)
      requires fences > 0
      requires jobs.Valid() && this in jobs.executors
      modifies this, jobs`pending, PostTarget()`jobCount
      ensures jobs.Valid() && jobs.executors == old(jobs.executors) && jobs.ran == old(jobs.ran)
      ensures fences == old(fences) - 1
      ensures old(jobCount) > 1 ==> jobCount == old(jobCount) - 1 && postJob == old(postJob) && jobs.pending == old(jobs.pending)
      ensures old(jobCount) == 1 ==> postJob == None
      ensures old(jobCount) == 1 && old(postJob) == None ==>
                jobCount == 0 && jobs.pending == old(jobs.pending)
      ensures old(jobCount) == 1 && old(postJob).Some? ==>
                var post := old(postJob).value;
                && jobs.pending == old(jobs.pending) + [post]
                && (post.executor == this ==> jobCount == 1)
                && (post.executor != this ==> jobCount == 0 && post.executor.jobCount == old(post.executor.jobCount) + 1)
    {
      fences := fences - 1;
      JobCompleteUpdate(jobs);
    }

    /**
     * One job (or fence) of this executor is complete. The count drops by one;
     * when it reaches zero the post job is detached from the slot and started
     * on its own executor, after the locked region.
     */
    method JobCompleteUpdate(jobs: JobSystem)
      requires jobCount > 0
      requires this in jobs.executors && jobs.Consistent(this)
      modifies this`jobCount, this`postJob, jobs`pending, PostTarget()`jobCount
      ensures jobs.Valid()
      ensures jobs.executors == old(jobs.executors) && jobs.ran == old(jobs.ran)
      ensures old(jobCount) > 1 ==>
                jobCount == old(jobCount) - 1 && postJob == old(postJob) && jobs.pending == old(jobs.pending)
      ensures old(jobCount) == 1 ==> postJob == None
      ensures old(jobCount) == 1 && old(postJob) == None ==>
                jobCount == 0 && jobs.pending == old(jobs.pending)
      ensures old(jobCount) == 1 && old(postJob).Some? ==>
                var post := old(postJob).value;
                && jobs.pending == old(jobs.pending) + [post]
                && (post.executor == this ==> jobCount == 1)
                && (post.executor != this ==> jobCount == 0 && post.executor.jobCount == old(post.executor.jobCount) + 1)
    {
      jobCount := jobCount - 1;
      var postCount := jobCount;
      var post: Option<Job> := None;
      if postCount == 0 {
        post := postJob;
        postJob := None;
      }
      // outside the lock
      if postCount == 0 && post.Some? {
        StartOnExecutor(post.value, jobs);
      }
    }

    /**
     * WaitForCompletion (also run by the destructor): returns once the count
     * is zero. Each wake-up of the wait is a worker having run one started job.
     */
    method WaitForCompletion(jobs: JobSystem)
      requires fences == 0
      requires jobs.Valid() && this in jobs.executors
      modifies jobs`pending, jobs`ran, jobs.executors`jobCount, jobs.executors`postJob
      ensures jobs.Valid() && jobs.executors == old(jobs.executors)
      ensures jobCount == 0 && CountFor(jobs.pending, this) == 0
      ensures forall e :: e in jobs.executors ==> e.fences == old(e.fences)
    {
      while jobCount != 0
        invariant jobs.Valid() && jobs.executors == old(jobs.executors) && this in jobs.executors
        invariant forall e :: e in jobs.executors ==> e.fences == old(e.fences)
        decreases jobs.Work()
      {
        // no fence is held, so some started job still reports here
        CountForPositive(jobs.pending, this);
        var i :| 0 <= i < |jobs.pending|;
        var _ := jobs.Process(i);
      }
    }
  }

  /** An executor is idle exactly when none of its jobs is pending and no fence is pushed. */
  lemma IdleIffNothingOutstanding(jobs: JobSystem, e: LegacyJobExecutor)
    requires jobs.Valid() && e in jobs.executors
    ensures !e.IsRunning() <==> (e.fences == 0 && forall k :: 0 <= k < |jobs.pending| ==> jobs.pending[k].executor != e)
  {
    CountForPositive(jobs.pending, e);
  }
}
