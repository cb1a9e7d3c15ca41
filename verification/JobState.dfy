/** The print queue's job map as a value, and what serving one job request does to it. */
module JobState {
  import opened Wrappers

  type PeerId = string
  type JobId(==, !new)
  /** Serialised text or bytes the queue never looks into. */
  type Blob(==, !new)

  const TWO64 := 0x1_0000_0000_0000_0000
  const LOCK_TIMEOUT_SECONDS := 2 * 60 * 60

  type uint64 = x: int | 0 <= x < TWO64

  /** Go's conversion of a signed 64-bit number to uint64. */
  function ToUint64(x: int): uint64 { x % TWO64 }

  datatype Lock = Lock(peer: PeerId, created: uint64)

  datatype Content = Content(owner: PeerId, protocol: Blob, data: Blob)

  datatype JobValue = JobValue(id: JobId, content: Content, lock: Option<Lock>)

  type JobMap = map<JobId, JobValue>

  datatype Request =
    | SetJob(job: JobValue)
    | DeleteJob(id: JobId)
    | AcquireJob(id: JobId)
    | ReleaseJob(id: JobId)

  datatype Verdict = Done | Denied | NotFound

  function Target(req: Request): JobId {
    if req.SetJob? then req.job.id else req.id
  }

  /** checkMutable: `now` is the leader's clock in seconds. */
  predicate Mutable(lock: Option<Lock>, peer: PeerId, now: int) {
    lock == None || lock.value.peer == "" || lock.value.peer == peer
    || lock.value.created < ToUint64(now - LOCK_TIMEOUT_SECONDS)
  }

  function Serve(jobs: JobMap, from: PeerId, now: int, req: Request): (JobMap, Verdict) {
    var id := Target(req);
    if id in jobs && !Mutable(jobs[id].lock, from, now) then (jobs, Denied)
    else match req
      case SetJob(job) => (jobs[id := if id in jobs then job.(lock := jobs[id].lock) else job], Done)
      case DeleteJob(_) => if id in jobs then (jobs - {id}, Done) else (jobs, NotFound)
      case AcquireJob(_) =>
        if id in jobs then (jobs[id := jobs[id].(lock := Some(Lock(from, ToUint64(now))))], Done) else (jobs, NotFound)
      case ReleaseJob(_) => if id in jobs then (jobs[id := jobs[id].(lock := None)], Done) else (jobs, NotFound)
  }

  /** What a server holds after a state arrives: it commits the state only if the leader sent it. */
  function Adopt(jobs: JobMap, leader: PeerId, from: PeerId, state: JobMap): JobMap {
    if from == leader then state else jobs
  }

  /** Every job is filed under its own id. */
  predicate Filed(jobs: JobMap) {
    forall k | k in jobs :: jobs[k].id == k
  }

  /** A request touches at most the job it names, a refused one touches nothing, and a job that outlives
      the request has a new lock only if the request was to acquire or release it. */
  lemma ServeFrame(jobs: JobMap, from: PeerId, now: int, req: Request, k: JobId)
    requires Filed(jobs)
    ensures var (r, v) := Serve(jobs, from, now, req);
            && Filed(r)
            && (v != Done ==> r == jobs)
            && (k != Target(req) ==> (k in r <==> k in jobs) && (k in jobs ==> r[k] == jobs[k]))
            && (k in jobs && k !in r ==> req == DeleteJob(k) && v == Done)
            && (k in jobs && k in r && r[k].lock != jobs[k].lock ==> req == AcquireJob(k) || req == ReleaseJob(k))
            && (k in jobs && k in r && r[k].content != jobs[k].content ==> req.SetJob? && req.job.id == k)
  {
  }

  /** What a lock is worth against another peer: everything up to and including the second it times out,
      provided the clock is past the timeout; before that the subtraction wraps and only locks created
      beyond the wrapped bound hold. */
  lemma LockBars(lock: Lock, peer: PeerId, now: int)
    requires lock.peer != "" && lock.peer != peer && 0 <= now < TWO64
    ensures !Mutable(Some(lock), peer, now) <==>
        if now >= LOCK_TIMEOUT_SECONDS then now <= lock.created + LOCK_TIMEOUT_SECONDS
        else lock.created >= TWO64 + now - LOCK_TIMEOUT_SECONDS
  {
    var d := now - LOCK_TIMEOUT_SECONDS;
    if d < 0 {
      assert d % TWO64 == d + TWO64;
    } else {
      assert d % TWO64 == d;
    }
  }

  /** A job is open to every peer at every clock exactly when it has no lock, or one that names nobody. */
  lemma OpenExact(lock: Option<Lock>)
    ensures (forall peer, now :: Mutable(lock, peer, now)) <==> lock == None || lock.value.peer == ""
  {
    if lock.Some? && lock.value.peer != "" {
      var other := lock.value.peer + "'";
      assert |other| != |lock.value.peer|;
      assert !Mutable(lock, other, LOCK_TIMEOUT_SECONDS);
    }
  }

  /** Who gets which answer: a refusal only where another peer's lock stands, and never for the holder. */
  lemma Answers(jobs: JobMap, from: PeerId, now: int, req: Request)
    ensures var v := Serve(jobs, from, now, req).1;
            && (v == NotFound <==> Target(req) !in jobs && !req.SetJob?)
            && (v == Denied ==> jobs[Target(req)].lock.Some? && jobs[Target(req)].lock.value.peer !in {"", from})
            && (v == Denied <==> Target(req) in jobs && Serve(jobs, from, now, ReleaseJob(Target(req))).1 == Denied)
  {
  }

  /** A granted acquire leaves the job as it was, under a lock that names the sender and the clock. */
  lemma AcquireTakes(jobs: JobMap, from: PeerId, now: int, id: JobId)
    requires Serve(jobs, from, now, AcquireJob(id)).1 == Done
    ensures id in jobs
    ensures var r := Serve(jobs, from, now, AcquireJob(id)).0;
            && id in r && r[id].id == jobs[id].id && r[id].content == jobs[id].content
            && r[id].lock.Some? && r[id].lock.value.peer == from
            && (r[id].lock.value.created - now) % TWO64 == 0
  {
    assert now - now % TWO64 == TWO64 * (now / TWO64);
    assert (now % TWO64 - now) % TWO64 == 0;
  }

  /** A granted release releases: the job is still filed, with its content and no lock, and the next
      acquire, by any peer at any clock, succeeds. */
  lemma ReleaseOpens(jobs: JobMap, p: PeerId, now: int, id: JobId, q: PeerId, later: int)
    requires Serve(jobs, p, now, ReleaseJob(id)).1 == Done
    ensures id in jobs
    ensures var r := Serve(jobs, p, now, ReleaseJob(id)).0;
            && id in r && r[id] == JobValue(jobs[id].id, jobs[id].content, None)
            && Serve(r, q, later, AcquireJob(id)).1 == Done
  {
  }

  /** A granted delete forgets the job: nobody finds it any more, and a set files it anew. */
  lemma DeleteForgets(jobs: JobMap, p: PeerId, now: int, id: JobId, q: PeerId, later: int, job: JobValue)
    requires Serve(jobs, p, now, DeleteJob(id)).1 == Done
    ensures var r := Serve(jobs, p, now, DeleteJob(id)).0;
            && id !in r
            && Serve(r, q, later, AcquireJob(id)).1 == NotFound
            && (job.id == id ==> Serve(r, q, later, SetJob(job)) == (r[id := job], Done))
  {
  }

  /** A new job is filed exactly as sent, lock included; one already there takes the new content and
      keeps its lock. */
  lemma SetFiles(jobs: JobMap, from: PeerId, now: int, job: JobValue)
    requires Serve(jobs, from, now, SetJob(job)).1 == Done
    ensures var r := Serve(jobs, from, now, SetJob(job)).0;
            && job.id in r && r[job.id].id == job.id && r[job.id].content == job.content
            && r[job.id].lock == if job.id in jobs then jobs[job.id].lock else job.lock
  {
  }

  // ---------------------------------------------------------------- runs of the leader

  datatype Event = Event(from: PeerId, now: int, req: Request)

  function JobsAfter(init: JobMap, evs: seq<Event>, n: nat): JobMap
    requires n <= |evs|
  {
    if n == 0 then init
    else Serve(JobsAfter(init, evs, n - 1), evs[n - 1].from, evs[n - 1].now, evs[n - 1].req).0
  }

  function VerdictAt(init: JobMap, evs: seq<Event>, n: nat): Verdict
    requires n < |evs|
  {
    Serve(JobsAfter(init, evs, n), evs[n].from, evs[n].now, evs[n].req).1
  }

  /** The leader's clock never runs backwards, and stands past the lock timeout and below the width of
      its type. */
  ghost predicate Clocked(evs: seq<Event>) {
    && (forall i, j | 0 <= i < j < |evs| :: evs[i].now <= evs[j].now)
    && (forall i | 0 <= i < |evs| :: LOCK_TIMEOUT_SECONDS <= evs[i].now < TWO64)
  }

  /** `p` gives the job up: a release or a deletion of its own. */
  predicate GivesUp(ev: Event, p: PeerId, id: JobId) {
    ev.from == p && (ev.req == ReleaseJob(id) || ev.req == DeleteJob(id))
  }

  /** The content of the job if only `p`'s own writes between events `i` and `j` count. */
  function OwnWrites(evs: seq<Event>, i: nat, j: nat, p: PeerId, id: JobId, content: Content): Content
    requires i <= j <= |evs|
  {
    if i == j then content
    else
      var ev := evs[j - 1];
      if ev.from == p && ev.req.SetJob? && ev.req.job.id == id then ev.req.job.content
      else OwnWrites(evs, i, j - 1, p, id, content)
  }

  predicate Leased(jobs: JobMap, id: JobId, p: PeerId, since: int) {
    id in jobs && jobs[id].lock.Some? && jobs[id].lock.value.peer == p && jobs[id].lock.value.created >= since
  }

  /** A lease no older than `since` bars everyone else for two hours from `since`: the job stays, `p`
      keeps it with a lock no older than `since`, and its content is exactly what `p` itself has written. */
  lemma {:induction false} LeaseHolds(init: JobMap, evs: seq<Event>, i: nat, j: nat, id: JobId, p: PeerId, since: int)
    requires i <= j <= |evs| && Clocked(evs) && Filed(init) && p != ""
    requires Leased(JobsAfter(init, evs, i), id, p, since)
    requires forall k | i <= k < j :: since <= evs[k].now <= since + LOCK_TIMEOUT_SECONDS && !GivesUp(evs[k], p, id)
    ensures Leased(JobsAfter(init, evs, j), id, p, since)
    ensures JobsAfter(init, evs, j)[id].content == OwnWrites(evs, i, j, p, id, JobsAfter(init, evs, i)[id].content)
    decreases j
  {
    if i < j {
      LeaseHolds(init, evs, i, j - 1, id, p, since);
      var jobs := JobsAfter(init, evs, j - 1);
      var ev := evs[j - 1];
      if ev.from != p {
        LockBars(jobs[id].lock.value, ev.from, ev.now);
      }
      FiledAlways(init, evs, j - 1);
      ServeFrame(jobs, ev.from, ev.now, ev.req, id);
      assert ev.now % TWO64 == ev.now;
    }
  }

  lemma {:induction false} FiledAlways(init: JobMap, evs: seq<Event>, n: nat)
    requires n <= |evs| && Filed(init)
    ensures Filed(JobsAfter(init, evs, n))
  {
    if n > 0 {
      FiledAlways(init, evs, n - 1);
      ServeFrame(JobsAfter(init, evs, n - 1), evs[n - 1].from, evs[n - 1].now, evs[n - 1].req, Target(evs[n - 1].req));
    }
  }

  /** Leader lease safety: a granted acquire at event `i` is worth two hours. */
  lemma AcquireIsSafe(init: JobMap, evs: seq<Event>, i: nat, j: nat, id: JobId)
    requires i < j <= |evs| && Clocked(evs) && Filed(init) && evs[i].from != ""
    requires evs[i].req == AcquireJob(id) && VerdictAt(init, evs, i) == Done
    requires evs[j - 1].now <= evs[i].now + LOCK_TIMEOUT_SECONDS
    requires forall k | i < k < j :: !GivesUp(evs[k], evs[i].from, id)
    ensures var p, before := evs[i].from, JobsAfter(init, evs, i)[id];
            && Leased(JobsAfter(init, evs, j), id, p, evs[i].now)
            && JobsAfter(init, evs, j)[id].content == OwnWrites(evs, i, j, p, id, before.content)
    ensures forall k | i < k < j && evs[k].from != evs[i].from && Target(evs[k].req) == id ::
        VerdictAt(init, evs, k) == Denied
  {
    assert evs[i].now % TWO64 == evs[i].now;
    assert Leased(JobsAfter(init, evs, i + 1), id, evs[i].from, evs[i].now);
    LeaseHolds(init, evs, i + 1, j, id, evs[i].from, evs[i].now);
    OwnWritesFrom(evs, i, j, evs[i].from, id, JobsAfter(init, evs, i)[id].content);
    forall k | i < k < j && evs[k].from != evs[i].from && Target(evs[k].req) == id
      ensures VerdictAt(init, evs, k) == Denied
    {
      LeaseHolds(init, evs, i + 1, k, id, evs[i].from, evs[i].now);
      LockBars(JobsAfter(init, evs, k)[id].lock.value, evs[k].from, evs[k].now);
    }
  }

  /** Hand-over: once a release is granted the job lies open, as it was, until somebody asks for it; and
      whoever asks first, whenever that is, is served. */
  lemma {:induction false} ReleasedUntilAsked(init: JobMap, evs: seq<Event>, i: nat, j: nat, id: JobId)
    requires i < j <= |evs| && Filed(init)
    requires evs[i].req == ReleaseJob(id) && VerdictAt(init, evs, i) == Done
    requires forall k | i < k < j :: Target(evs[k].req) != id
    ensures id in JobsAfter(init, evs, i)
    ensures id in JobsAfter(init, evs, j)
    ensures JobsAfter(init, evs, j)[id] == JobValue(id, JobsAfter(init, evs, i)[id].content, None)
    ensures j < |evs| && Target(evs[j].req) == id ==> VerdictAt(init, evs, j) == Done
    decreases j
  {
    FiledAlways(init, evs, j - 1);
    if i + 1 < j {
      ReleasedUntilAsked(init, evs, i, j - 1, id);
      ServeFrame(JobsAfter(init, evs, j - 1), evs[j - 1].from, evs[j - 1].now, evs[j - 1].req, id);
    } else {
      ReleaseOpens(JobsAfter(init, evs, i), evs[i].from, evs[i].now, id, "", 0);
    }
  }

  lemma {:induction false} OwnWritesFrom(evs: seq<Event>, i: nat, j: nat, p: PeerId, id: JobId, content: Content)
    requires i < j <= |evs| && !evs[i].req.SetJob?
    ensures OwnWrites(evs, i, j, p, id, content) == OwnWrites(evs, i + 1, j, p, id, content)
    decreases j
  {
    if i + 1 < j {
      OwnWritesFrom(evs, i, j - 1, p, id, content);
    }
  }

  /** A run goes on from any of its states as it would from the start. */
  lemma {:induction false} JobsAfterSuffix(init: JobMap, evs: seq<Event>, i: nat, n: nat)
    requires i <= n <= |evs|
    ensures JobsAfter(init, evs, n) == JobsAfter(JobsAfter(init, evs, i), evs[i..], n - i)
    decreases n
  {
    if i < n {
      JobsAfterSuffix(init, evs, i, n - 1);
    }
  }

  lemma {:induction false} JobsAfterPrefix(init: JobMap, evs: seq<Event>, ev: Event, n: nat)
    requires n <= |evs|
    ensures JobsAfter(init, evs + [ev], n) == JobsAfter(init, evs, n)
  {
    if n > 0 {
      JobsAfterPrefix(init, evs, ev, n - 1);
    }
  }

  /** What the server pushes to its wrapper: a whole state, or a summary of the peers. */
  datatype Push = StatePush(jobs: JobMap) | PeersPush(estimate: int)
}
