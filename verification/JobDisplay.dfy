/** From the leader's state to what a wrapper shows: listeners that adopt whole states over a first-in
    first-out channel, and the one-hour window in which a wrapper displays a lock. */
module JobDisplay {
  import opened Wrappers
  import opened JobState

  const DISPLAY_SECONDS: real := 3600.0

  /** The `acquired_by_` entry of a job shown at wrapper time `now`. An unset lock reads as an empty peer
      and creation time 0. */
  function ShownHolder(lock: Option<Lock>, now: real): Option<PeerId> {
    var created: int := if lock.Some? then lock.value.created else 0;
    if created as real > now - DISPLAY_SECONDS then Some(if lock.Some? then lock.value.peer else "") else None
  }

  // ---------------------------------------------------------------- what is shown

  /** An acquired job is shown as acquired, by its holder, for exactly an hour on the leader's clock. */
  lemma AcquiredIsShown(jobs: JobMap, p: PeerId, now: int, id: JobId, t: real)
    requires Serve(jobs, p, now, AcquireJob(id)).1 == Done && 0 <= now < TWO64
    ensures var r := Serve(jobs, p, now, AcquireJob(id)).0;
            id in r && ShownHolder(r[id].lock, t) == if t < now as real + 3600.0 then Some(p) else None
  {
    assert now % TWO64 == now;
  }

  /** A released one is shown as free by every clock past its first hour. */
  lemma ReleasedIsShown(jobs: JobMap, p: PeerId, now: int, id: JobId, t: real)
    requires Serve(jobs, p, now, ReleaseJob(id)).1 == Done
    ensures var r := Serve(jobs, p, now, ReleaseJob(id)).0;
            id in r && ShownHolder(r[id].lock, t) == if t < 3600.0 then Some("") else None
  {
  }

  // ---------------------------------------------------------------- when the display is conservative

  /** A test of what a wrapper shows: from the shown state, on a leader clock that has reached `now0`, the
      events run up to number `j` without `p` giving the job up; event `j` is another peer's request for
      the job; and at wrapper time `t`, at most an hour before it, the shown state names `p` as holder. */
  ghost predicate Challenge(shown: JobMap, now0: int, id: JobId, p: PeerId, evs: seq<Event>, j: nat, t: real) {
    && j < |evs| && Clocked(evs) && now0 <= evs[0].now
    && (forall k | 0 <= k < j :: !GivesUp(evs[k], p, id))
    && evs[j].from != p && Target(evs[j].req) == id
    && id in shown && ShownHolder(shown[id].lock, t) == Some(p)
    && evs[j].now as real <= t + DISPLAY_SECONDS
  }

  /** Showing the state is conservative: the leader refuses in every such test. */
  ghost predicate Conservative(shown: JobMap, now0: int, id: JobId, p: PeerId) {
    forall evs, j: nat, t | Challenge(shown, now0, id, p, evs, j, t) :: VerdictAt(shown, evs, j) == Denied
  }

  /** Exactly when: the lock is dated at most one second ahead of the leader's clock. Beyond that, a
      re-acquire by the holder brings the real lease back to the clock while the display lives on. */
  lemma DisplayExact(shown: JobMap, now0: int, id: JobId, p: PeerId)
    requires Filed(shown) && p != "" && Leased(shown, id, p, 0)
    requires LOCK_TIMEOUT_SECONDS <= now0 && now0 + LOCK_TIMEOUT_SECONDS + 1 < TWO64
    ensures Conservative(shown, now0, id, p) <==> shown[id].lock.value.created <= now0 + 1
  {
    if shown[id].lock.value.created <= now0 + 1 {
      forall evs, j: nat, t | Challenge(shown, now0, id, p, evs, j, t) ensures VerdictAt(shown, evs, j) == Denied {
        ChallengeRefused(shown, now0, id, p, evs, j, t);
      }
    } else {
      var evs, t := ReacquireOutlived(shown, now0, id, p);
      assert Challenge(shown, now0, id, p, evs, 1, t);
    }
  }

  lemma ChallengeRefused(shown: JobMap, now0: int, id: JobId, p: PeerId, evs: seq<Event>, j: nat, t: real)
    requires Filed(shown) && p != "" && Challenge(shown, now0, id, p, evs, j, t)
    requires shown[id].lock.Some? ==> shown[id].lock.value.created <= now0 + 1
    ensures VerdictAt(shown, evs, j) == Denied
  {
    var since := shown[id].lock.value.created - 1;
    forall k | 0 <= k < j ensures since <= evs[k].now <= since + LOCK_TIMEOUT_SECONDS {
      assert evs[0].now <= evs[k].now <= evs[j].now;
    }
    LeaseHolds(shown, evs, 0, j, id, p, since);
    assert evs[j].now <= since + LOCK_TIMEOUT_SECONDS;
    LockBars(JobsAfter(shown, evs, j)[id].lock.value, evs[j].from, evs[j].now);
  }

  /** The failing family: whatever the job and however far ahead its lock, from two seconds on. */
  lemma ReacquireOutlived(shown: JobMap, now0: int, id: JobId, p: PeerId) returns (evs: seq<Event>, t: real)
    requires Filed(shown) && p != "" && Leased(shown, id, p, now0 + 2)
    requires LOCK_TIMEOUT_SECONDS <= now0 && now0 + LOCK_TIMEOUT_SECONDS + 1 < TWO64
    ensures Challenge(shown, now0, id, p, evs, 1, t) && VerdictAt(shown, evs, 1) == Done
  {
    var q := p + "'";
    assert |q| != |p|;
    evs := [Event(p, now0, AcquireJob(id)), Event(q, now0 + LOCK_TIMEOUT_SECONDS + 1, DeleteJob(id))];
    t := (now0 + 3601) as real;
    assert now0 % TWO64 == now0;
    assert JobsAfter(shown, evs, 0) == shown;
    assert JobsAfter(shown, evs, 1)[id].lock == Some(Lock(p, now0));
    LockBars(Lock(p, now0), q, evs[1].now);
  }

  /** Whatever state of a run a wrapper looks at, old or new: if at time `t` it shows the job as acquired
      by `p` under a lock at most a second ahead of the leader's clock, the leader refuses every other
      peer's request for that job up to an hour later, unless `p` gave the job up after that state. */
  lemma DisplayConservative(init: JobMap, evs: seq<Event>, i: nat, j: nat, id: JobId, p: PeerId, t: real)
    requires i <= j < |evs| && Clocked(evs) && Filed(init) && p != ""
    requires id in JobsAfter(init, evs, i) && ShownHolder(JobsAfter(init, evs, i)[id].lock, t) == Some(p)
    requires JobsAfter(init, evs, i)[id].lock.value.created <= evs[i].now + 1
    requires evs[j].now as real <= t + DISPLAY_SECONDS
    requires forall k | i <= k < j :: !GivesUp(evs[k], p, id)
    requires evs[j].from != p && Target(evs[j].req) == id
    ensures VerdictAt(init, evs, j) == Denied
  {
    hide JobsAfter, VerdictAt, ShownHolder;
    FiledAlways(init, evs, i);
    VerdictSuffix(init, evs, i, j);
    ChallengeRefused(JobsAfter(init, evs, i), evs[i].now, id, p, evs[i..], j - i, t);
  }

  lemma VerdictSuffix(init: JobMap, evs: seq<Event>, i: nat, j: nat)
    requires i <= j < |evs|
    ensures VerdictAt(init, evs, j) == VerdictAt(JobsAfter(init, evs, i), evs[i..], j - i)
  {
    hide Serve;
    JobsAfterSuffix(init, evs, i, j);
  }

  // ---------------------------------------------------------------- runs in which it is

  /** The lock names a holder and is dated more than a second after `now`. */
  predicate Ahead(lock: Option<Lock>, now: int) {
    lock.Some? && lock.value.peer != "" && lock.value.created > now + 1
  }

  predicate NotAhead(jobs: JobMap, now: int) {
    forall k | k in jobs :: !Ahead(jobs[k].lock, now)
  }

  /** A job new to the map is not filed under a lock dated more than a second ahead. What a request says
      about the lock of a job already there does not matter. */
  predicate Honest(jobs: JobMap, ev: Event) {
    ev.req.SetJob? && ev.req.job.id !in jobs ==> !Ahead(ev.req.job.lock, ev.now)
  }

  lemma StepNotAhead(jobs: JobMap, ev: Event, later: int)
    requires NotAhead(jobs, ev.now) && Honest(jobs, ev) && 0 <= ev.now < TWO64 && ev.now <= later
    ensures NotAhead(Serve(jobs, ev.from, ev.now, ev.req).0, later)
  {
    assert ToUint64(ev.now) == ev.now;
  }

  /** In a run of such requests no lock is ever ahead, so every state of it is safe to show. */
  lemma {:induction false} NeverAhead(init: JobMap, evs: seq<Event>, n: nat)
    requires n < |evs| && Clocked(evs)
    requires NotAhead(init, evs[0].now) && forall i | 0 <= i < n :: Honest(JobsAfter(init, evs, i), evs[i])
    ensures NotAhead(JobsAfter(init, evs, n), evs[n].now)
  {
    if n > 0 {
      hide Honest, NotAhead, Serve;
      NeverAhead(init, evs, n - 1);
      StepNotAhead(JobsAfter(init, evs, n - 1), evs[n - 1], evs[n].now);
    }
  }

  /** And only those: the state right after a new job is filed under a holder's lock is safe to show if
      and only if the request was honest. */
  lemma NewJobShownExact(jobs: JobMap, ev: Event)
    requires Filed(jobs) && LOCK_TIMEOUT_SECONDS <= ev.now && ev.now + LOCK_TIMEOUT_SECONDS + 1 < TWO64
    requires ev.req.SetJob? && ev.req.job.id !in jobs && ev.req.job.lock.Some? && ev.req.job.lock.value.peer != ""
    ensures Conservative(Serve(jobs, ev.from, ev.now, ev.req).0, ev.now, ev.req.job.id, ev.req.job.lock.value.peer)
            <==> Honest(jobs, ev)
  {
    DisplayExact(Serve(jobs, ev.from, ev.now, ev.req).0, ev.now, ev.req.job.id, ev.req.job.lock.value.peer);
  }

  // ---------------------------------------------------------------- one leader, one listener

  /** The leader's register and the events it has handled, the states on their way to a listener, and
      the state the listener holds. */
  datatype System = System(jobs: JobMap, served: seq<Event>, channel: seq<JobMap>, listener: JobMap)

  datatype Step =
    | Handle(ev: Event)                     // the leader handles a request and publishes the new state
    | Announce                              // the leader publishes its state on being elected
    | Deliver                               // the listener receives the oldest published state
    | Stray(from: PeerId, state: JobMap)    // the listener receives a state published by someone else

  function Next(sys: System, leader: PeerId, step: Step): System {
    match step
    case Handle(ev) =>
      var (jobs, v) := Serve(sys.jobs, ev.from, ev.now, ev.req);
      System(jobs, sys.served + [ev], if v == Done then sys.channel + [jobs] else sys.channel, sys.listener)
    case Announce => sys.(channel := sys.channel + [sys.jobs])
    case Deliver =>
      if sys.channel == [] then sys
      else sys.(listener := Adopt(sys.listener, leader, leader, sys.channel[0]), channel := sys.channel[1..])
    case Stray(from, state) => sys.(listener := Adopt(sys.listener, leader, from, state))
  }

  function SystemAfter(jobs: JobMap, listener: JobMap, leader: PeerId, steps: seq<Step>, n: nat): System
    requires n <= |steps|
  {
    if n == 0 then System(jobs, [], [], listener)
    else Next(SystemAfter(jobs, listener, leader, steps, n - 1), leader, steps[n - 1])
  }

  /** Bookkeeping beside the system: how many events the leader had handled when it published each state
      in flight, and when it published the one the listener holds (-1 for the initial one). */
  datatype Book = Book(sent: seq<nat>, seen: int)

  function NextBook(book: Book, sys: System, step: Step): Book {
    match step
    case Handle(ev) =>
      if Serve(sys.jobs, ev.from, ev.now, ev.req).1 == Done then book.(sent := book.sent + [|sys.served| + 1]) else book
    case Announce => book.(sent := book.sent + [|sys.served|])
    case Deliver => if book.sent == [] then book else Book(book.sent[1..], book.sent[0])
    case Stray(_, _) => book
  }

  function BookAfter(jobs: JobMap, listener: JobMap, leader: PeerId, steps: seq<Step>, n: nat): Book
    requires n <= |steps|
  {
    if n == 0 then Book([], -1)
    else NextBook(BookAfter(jobs, listener, leader, steps, n - 1),
                  SystemAfter(jobs, listener, leader, steps, n - 1), steps[n - 1])
  }

  /** The states in flight, and the listener's, are states the leader has committed, in its order. */
  ghost predicate Follows(jobs: JobMap, listener: JobMap, sys: System, book: Book) {
    && sys.jobs == JobsAfter(jobs, sys.served, |sys.served|)
    && |book.sent| == |sys.channel|
    && (forall i | 0 <= i < |book.sent| ::
          book.seen <= book.sent[i] <= |sys.served| && sys.channel[i] == JobsAfter(jobs, sys.served, book.sent[i]))
    && (forall i, j | 0 <= i < j < |book.sent| :: book.sent[i] <= book.sent[j])
    && -1 <= book.seen <= |sys.served|
    && sys.listener == if book.seen < 0 then listener else JobsAfter(jobs, sys.served, book.seen)
  }

  /** States sent by anyone but the leader arrive as strays. */
  ghost predicate Authentic(leader: PeerId, steps: seq<Step>) {
    forall i | 0 <= i < |steps| && steps[i].Stray? :: steps[i].from != leader
  }

  lemma FollowsServed(jobs: JobMap, listener: JobMap, sys: System, book: Book, ev: Event)
    requires Follows(jobs, listener, sys, book)
    ensures Follows(jobs, listener,
                    sys.(jobs := Serve(sys.jobs, ev.from, ev.now, ev.req).0, served := sys.served + [ev]), book)
  {
    hide Serve;
    forall k: nat | k <= |sys.served|
      ensures JobsAfter(jobs, sys.served + [ev], k) == JobsAfter(jobs, sys.served, k)
    {
      JobsAfterPrefix(jobs, sys.served, ev, k);
    }
  }

  lemma FollowsPublished(jobs: JobMap, listener: JobMap, sys: System, book: Book)
    requires Follows(jobs, listener, sys, book)
    ensures Follows(jobs, listener, sys.(channel := sys.channel + [sys.jobs]), book.(sent := book.sent + [|sys.served|]))
  {
    hide JobsAfter;
  }

  lemma FollowsDelivered(jobs: JobMap, listener: JobMap, sys: System, book: Book)
    requires Follows(jobs, listener, sys, book) && sys.channel != []
    ensures Follows(jobs, listener, sys.(listener := sys.channel[0], channel := sys.channel[1..]),
                    Book(book.sent[1..], book.sent[0]))
    ensures book.seen <= book.sent[0]
  {
    hide JobsAfter;
  }

  lemma FollowsLengths(jobs: JobMap, listener: JobMap, sys: System, book: Book)
    requires Follows(jobs, listener, sys, book)
    ensures |book.sent| == |sys.channel|
  {
  }

  lemma {:induction false} FollowsStep(jobs: JobMap, listener: JobMap, sys: System, book: Book, leader: PeerId, step: Step)
    requires Follows(jobs, listener, sys, book) && (step.Stray? ==> step.from != leader)
    ensures Follows(jobs, listener, Next(sys, leader, step), NextBook(book, sys, step))
    ensures book.seen <= NextBook(book, sys, step).seen
    ensures sys.served <= Next(sys, leader, step).served
  {
    hide Serve, Follows;
    FollowsLengths(jobs, listener, sys, book);
    match step {
      case Handle(ev) =>
        FollowsServed(jobs, listener, sys, book, ev);
        FollowsPublished(jobs, listener,
                         sys.(jobs := Serve(sys.jobs, ev.from, ev.now, ev.req).0, served := sys.served + [ev]), book);
      case Announce =>
        FollowsPublished(jobs, listener, sys, book);
      case Deliver =>
        if sys.channel != [] {
          FollowsDelivered(jobs, listener, sys, book);
        }
      case Stray(_, _) =>
    }
  }

  /** While one leader is in office, what a listener holds is a state that leader committed earlier. */
  lemma {:induction false} ListenerFollows(jobs: JobMap, listener: JobMap, leader: PeerId, steps: seq<Step>, n: nat)
    requires n <= |steps| && Authentic(leader, steps)
    ensures Follows(jobs, listener, SystemAfter(jobs, listener, leader, steps, n), BookAfter(jobs, listener, leader, steps, n))
  {
    hide Follows, Next, NextBook;
    if n > 0 {
      ListenerFollows(jobs, listener, leader, steps, n - 1);
      FollowsStep(jobs, listener, SystemAfter(jobs, listener, leader, steps, n - 1),
                  BookAfter(jobs, listener, leader, steps, n - 1), leader, steps[n - 1]);
    } else {
      FollowsInit(jobs, listener);
    }
  }

  lemma FollowsInit(jobs: JobMap, listener: JobMap)
    ensures Follows(jobs, listener, System(jobs, [], [], listener), Book([], -1))
  {
  }

  /** And it never goes back: later states of the listener are later in the leader's history. */
  lemma {:induction false} ListenerMonotone(
    jobs: JobMap, listener: JobMap, leader: PeerId, steps: seq<Step>, m: nat, n: nat)
    requires m <= n <= |steps| && Authentic(leader, steps)
    ensures BookAfter(jobs, listener, leader, steps, m).seen <= BookAfter(jobs, listener, leader, steps, n).seen
    ensures SystemAfter(jobs, listener, leader, steps, m).served
            <= SystemAfter(jobs, listener, leader, steps, n).served
    decreases n
  {
    hide Follows, Next, NextBook;
    if m < n {
      ListenerMonotone(jobs, listener, leader, steps, m, n - 1);
      ListenerFollows(jobs, listener, leader, steps, n - 1);
      FollowsStep(jobs, listener, SystemAfter(jobs, listener, leader, steps, n - 1),
                  BookAfter(jobs, listener, leader, steps, n - 1), leader, steps[n - 1]);
    }
  }

  /** The step puts the leader's state on its way. */
  predicate Publishes(sys: System, step: Step) {
    step.Announce? || (step.Handle? && Serve(sys.jobs, step.ev.from, step.ev.now, step.ev.req).1 == Done)
  }

  /** The last state on its way, or with nothing on its way the listener's own, is the leader's present one. */
  predicate Current(sys: System) {
    sys.jobs == if sys.channel == [] then sys.listener else sys.channel[|sys.channel| - 1]
  }

  /** Nothing is withheld either: that is so ever after the leader has first published anything. */
  lemma {:induction false} CaughtUp(jobs: JobMap, listener: JobMap, leader: PeerId, steps: seq<Step>, i: nat, n: nat)
    requires i < n <= |steps| && Authentic(leader, steps)
    requires Publishes(SystemAfter(jobs, listener, leader, steps, i), steps[i])
    ensures Current(SystemAfter(jobs, listener, leader, steps, n))
    decreases n
  {
    hide Next, Current, Publishes;
    if i + 1 < n {
      CaughtUp(jobs, listener, leader, steps, i, n - 1);
    }
    CurrentStep(SystemAfter(jobs, listener, leader, steps, n - 1), leader, steps[n - 1]);
  }

  lemma CurrentStep(sys: System, leader: PeerId, step: Step)
    requires Current(sys) || Publishes(sys, step)
    requires step.Stray? ==> step.from != leader
    ensures Current(Next(sys, leader, step))
  {
  }

  /** So a granted acquire reaches every wrapper: if the leader handles nothing else, a listener to whom
      nothing is on its way any more shows the holder for exactly the hour. */
  lemma AcquireReachesListener(
    jobs: JobMap, listener: JobMap, leader: PeerId, steps: seq<Step>, i: nat, n: nat, p: PeerId, now: int, id: JobId, t: real)
    requires i < n <= |steps| && Authentic(leader, steps)
    requires steps[i] == Handle(Event(p, now, AcquireJob(id))) && 0 <= now < TWO64
    requires Publishes(SystemAfter(jobs, listener, leader, steps, i), steps[i])
    requires forall k | i < k < n :: !steps[k].Handle?
    requires SystemAfter(jobs, listener, leader, steps, n).channel == []
    ensures var shown := SystemAfter(jobs, listener, leader, steps, n).listener;
            id in shown && ShownHolder(shown[id].lock, t) == if t < now as real + 3600.0 then Some(p) else None
  {
    CaughtUp(jobs, listener, leader, steps, i, n);
    AcquiredIsShown(SystemAfter(jobs, listener, leader, steps, i).jobs, p, now, id, t);
    JobsKept(jobs, listener, leader, steps, i + 1, n);
  }

  lemma {:induction false} JobsKept(jobs: JobMap, listener: JobMap, leader: PeerId, steps: seq<Step>, m: nat, n: nat)
    requires m <= n <= |steps| && forall k | m <= k < n :: !steps[k].Handle?
    ensures SystemAfter(jobs, listener, leader, steps, n).jobs == SystemAfter(jobs, listener, leader, steps, m).jobs
    decreases n
  {
    if m < n {
      JobsKept(jobs, listener, leader, steps, m, n - 1);
    }
  }

  /** After `m` steps the wrapper of the listener, which holds a state of the leader, shows the job as
      acquired by `p` at its time `t`. */
  ghost predicate ShownAt(
    jobs: JobMap, listener: JobMap, leader: PeerId, steps: seq<Step>, m: nat, id: JobId, p: PeerId, t: real)
    requires m <= |steps|
  {
    var shown := SystemAfter(jobs, listener, leader, steps, m).listener;
    && BookAfter(jobs, listener, leader, steps, m).seen >= 0
    && id in shown && ShownHolder(shown[id].lock, t) == Some(p)
  }

  /** End to end: after any run of leader and listener, what the listener's wrapper showed at step `m`,
      under a lock at most a second ahead, is what the leader enforces at step `n`. */
  lemma {:induction false} ShownIsEnforced(
    jobs: JobMap, listener: JobMap, leader: PeerId, steps: seq<Step>, m: nat, n: nat,
    id: JobId, p: PeerId, t: real, ev: Event)
    requires m <= n <= |steps| && Authentic(leader, steps) && Filed(jobs) && p != ""
    requires ShownAt(jobs, listener, leader, steps, m, id, p, t)
    requires var evs := SystemAfter(jobs, listener, leader, steps, n).served + [ev];
             var seen := BookAfter(jobs, listener, leader, steps, m).seen;
             && Clocked(evs) && seen < |evs|
             && SystemAfter(jobs, listener, leader, steps, m).listener[id].lock.value.created <= evs[seen].now + 1
             && forall k | seen <= k < |evs| :: !GivesUp(evs[k], p, id)
    requires ev.now as real <= t + DISPLAY_SECONDS && ev.from != p && Target(ev.req) == id
    ensures Serve(SystemAfter(jobs, listener, leader, steps, n).jobs, ev.from, ev.now, ev.req).1 == Denied
  {
    ListenerFollows(jobs, listener, leader, steps, m);
    ListenerFollows(jobs, listener, leader, steps, n);
    ListenerMonotone(jobs, listener, leader, steps, m, n);
    var early := SystemAfter(jobs, listener, leader, steps, m).served;
    var late := SystemAfter(jobs, listener, leader, steps, n).served;
    var evs := late + [ev];
    var seen := BookAfter(jobs, listener, leader, steps, m).seen;
    SamePast(jobs, early, evs, seen);
    JobsAfterPrefix(jobs, late, ev, |late|);
    DisplayConservative(jobs, evs, seen, |late|, id, p, t);
  }

  lemma {:induction false} SamePast(init: JobMap, evs: seq<Event>, longer: seq<Event>, n: nat)
    requires n <= |evs| && evs <= longer
    ensures JobsAfter(init, longer, n) == JobsAfter(init, evs, n)
  {
    if n > 0 {
      SamePast(init, evs, longer, n - 1);
    }
  }
}
