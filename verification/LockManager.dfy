/** The client side of the lease locks: synchronous acquisition, the prolongation thread, and the
    readers that list who holds what. Clock readings and consensus replies are parameters. */
module LockManager {
  import opened LeaseTable
  import opened LeaseSafety

  /** What a synchronous acquire comes back with: the value computed when the command was applied, or
      the timeout exception, after which the command may still be applied. */
  datatype Reply = Applied(granted: bool) | TimedOut

  /** One turn of the prolongation thread: its three clock readings, and whether a leader is known. */
  datatype Poll = Poll(check: real, mark: real, stamp: real, leader: bool)

  /** The mark of the issue before number `m`, when the turns in `at` issue; `last` before the first. */
  function MarkBefore(polls: seq<Poll>, last: real, at: seq<nat>, m: nat): real
    requires m <= |at| && (m > 0 ==> at[m - 1] < |polls|)
  {
    if m == 0 then last else polls[at[m - 1]].mark
  }

  /** Turn `i` lies behind the first `m` issues and before the others. */
  predicate Between(at: seq<nat>, i: nat, m: nat) {
    m <= |at| && (m > 0 ==> at[m - 1] < i) && (m < |at| ==> i < at[m])
  }

  /** Issue number `m` is of a turn with a leader, at least a quarter of the timeout after the mark of
      the issue before. */
  predicate Due(polls: seq<Poll>, last: real, ttl: real, at: seq<nat>, m: nat) {
    m < |at| && at[m] < |polls| && polls[at[m]].leader
    && (m > 0 ==> at[m - 1] < |polls|) && polls[at[m]].check - MarkBefore(polls, last, at, m) >= ttl / 4.0
  }

  /** Of the first `n` turns, exactly those in `at` issue a prolongation; every other turn with a leader
      comes sooner than a quarter of the timeout after the mark of the last issue before it. */
  ghost predicate IssuesAt(polls: seq<Poll>, n: nat, last: real, ttl: real, at: seq<nat>)
    requires n <= |polls|
  {
    && (forall m | 0 <= m < |at| :: at[m] < n)
    && (forall m1, m2 | 0 <= m1 < m2 < |at| :: at[m1] < at[m2])
    && (forall m: nat | m < |at| :: Due(polls, last, ttl, at, m))
    && (forall i: nat, m: nat | Between(at, i, m) && i < n && polls[i].leader ::
          polls[i].check - MarkBefore(polls, last, at, m) < ttl / 4.0)
  }

  /** The timestamps of those prolongations. */
  function Stamps(polls: seq<Poll>, at: seq<nat>): seq<real>
    requires forall m | 0 <= m < |at| :: at[m] < |polls|
  {
    seq(|at|, m requires 0 <= m < |at| => polls[at[m]].stamp)
  }

  function Prolongations(polls: seq<Poll>, at: seq<nat>, c: ClientId): seq<Command>
    requires forall m | 0 <= m < |at| :: at[m] < |polls|
  {
    seq(|at|, m requires 0 <= m < |at| => Prolongate(c, polls[at[m]].stamp))
  }

  class CPReplLockManager {
    const selfID: ClientId
    const autoUnlockTime: real
    const lockImpl: ReplLockManagerImpl
    var lastProlongateTime: real
    /** The commands handed to the consensus layer so far. */
    var issued: seq<Command>

    constructor (autoUnlockTime: real, selfID: ClientId)
      ensures this.autoUnlockTime == autoUnlockTime == lockImpl.autoUnlockTime && this.selfID == selfID
      ensures lastProlongateTime == 0.0 && issued == []
      ensures fresh(lockImpl) && lockImpl.Valid() && lockImpl.log == []
    {
      this.autoUnlockTime := autoUnlockTime;
      this.selfID := selfID;
      lockImpl := new ReplLockManagerImpl(autoUnlockTime);
      lastProlongateTime := 0.0;
      issued := [];
    }

    /** True exactly when the command was granted and came back within half the timeout; a grant that
        came back later is given up by issuing a release, and nothing else is ever released. */
    method TryAcquire(lockID: LockId, attemptTime: real, reply: Reply, acquireTime: real) returns (res: Reply)
      modifies this`issued
      ensures res.TimedOut? <==> reply.TimedOut?
      ensures res == Applied(true) <==> reply == Applied(true) && acquireTime - attemptTime <= autoUnlockTime / 2.0
      ensures issued == old(issued) + [Acquire(lockID, selfID, attemptTime)]
                        + if reply == Applied(true) && res == Applied(false) then [Release(lockID, selfID)] else []
    {
      issued := issued + [Acquire(lockID, selfID, attemptTime)];
      if reply.TimedOut? {
        return TimedOut;
      }
      var acquireRes := reply.granted;
      if acquireRes {
        if acquireTime - attemptTime > autoUnlockTime / 2.0 {
          acquireRes := false;
          issued := issued + [Release(lockID, selfID)];
        }
      }
      return Applied(acquireRes);
    }

    /** The queue's acquireJob: a timeout is answered with false. */
    method AcquireJob(jid: LockId, attemptTime: real, reply: Reply, acquireTime: real) returns (ok: bool)
      modifies this`issued
      ensures ok <==> Answer(autoUnlockTime, attemptTime, reply, acquireTime)
      ensures issued == old(issued) + [Acquire(jid, selfID, attemptTime)]
                        + if GivesUp(autoUnlockTime, attemptTime, reply, acquireTime) then [Release(jid, selfID)] else []
    {
      var res := TryAcquire(jid, attemptTime, reply, acquireTime);
      return res == Applied(true);
    }

    /** One turn per poll, until the thread is told to stop. */
    method AutoAcquireThread(polls: seq<Poll>)
      modifies this`issued, this`lastProlongateTime
      ensures exists at :: IssuesAt(polls, |polls|, old(lastProlongateTime), autoUnlockTime, at)
                           && issued == old(issued) + Prolongations(polls, at, selfID)
                           && lastProlongateTime == MarkBefore(polls, old(lastProlongateTime), at, |at|)
    {
      hide IssuesAt;
      ghost var last, at: seq<nat> := lastProlongateTime, [];
      NothingIssued(polls, last, autoUnlockTime);
      for i := 0 to |polls|
        invariant forall m | 0 <= m < |at| :: at[m] < |polls|
        invariant IssuesAt(polls, i, last, autoUnlockTime, at)
        invariant issued == old(issued) + Prolongations(polls, at, selfID)
        invariant lastProlongateTime == MarkBefore(polls, last, at, |at|)
      {
        var p := polls[i];
        InRange(polls, i, last, autoUnlockTime, at);
        if p.check - lastProlongateTime < autoUnlockTime / 4.0 {
          TurnSkipped(polls, i, last, autoUnlockTime, at);
          continue;
        }
        if p.leader {
          TurnIssued(polls, i, last, autoUnlockTime, at);
          lastProlongateTime := p.mark;
          issued := issued + [Prolongate(selfID, p.stamp)];
          assert Prolongations(polls, at + [i], selfID) == Prolongations(polls, at, selfID) + [Prolongate(selfID, p.stamp)];
          at := at + [i];
        } else {
          TurnSkipped(polls, i, last, autoUnlockTime, at);
        }
      }
    }

    /** An open lock would be granted to anyone; one that is not open, only to its holder. */
    method NotAcquired(lockID: LockId, now: real) returns (open: bool)
      ensures !open ==> lockID in lockImpl.locks
      ensures forall c :: Grants(lockImpl.locks, autoUnlockTime, lockID, c, now) <==>
          open || lockImpl.locks[lockID].holder == c
    {
      if lockID in lockImpl.locks {
        return now - lockImpl.locks[lockID].time > autoUnlockTime;
      }
      return true;
    }

    /** Live locks grouped by holder. The dict is walked in `order`, and the clock reads `clock[i]` when
        its i-th entry is tested. */
    method GetPeerLocks(order: seq<LockId>, clock: seq<real>) returns (result: map<ClientId, seq<LockId>>)
      requires Lists(order, lockImpl.locks) && |clock| == |order|
      ensures forall c, l :: c in result && l in result[c] <==>
          l in lockImpl.locks && lockImpl.locks[l].holder == c && SeenLive(order, clock, lockImpl.locks, autoUnlockTime, l)
      ensures forall c | c in result :: result[c] != [] && forall a, b | 0 <= a < b < |result[c]| :: result[c][a] != result[c][b]
    {
      result := map[];
      for i := 0 to |order|
        invariant forall c, l :: c in result && l in result[c] <==>
            && l in lockImpl.locks && lockImpl.locks[l].holder == c
            && SeenLive(order[..i], clock[..i], lockImpl.locks, autoUnlockTime, l)
        invariant forall c | c in result :: result[c] != [] && forall a, b | 0 <= a < b < |result[c]| :: result[c][a] != result[c][b]
      {
        var lid := order[i];
        assert lid in order && lid !in order[..i];
        var lease := lockImpl.locks[lid];
        SeenLiveStep(order, clock, lockImpl.locks, autoUnlockTime, i);
        if clock[i] - lease.time < autoUnlockTime {
          var mine := if lease.holder in result then result[lease.holder] else [];
          result := result[lease.holder := mine + [lid]];
        }
      }
      assert order[..|order|] == order && clock[..|clock|] == clock;
    }

    /** The queue's getLocks: invert the grouping again. */
    method GetLocks(order: seq<LockId>, clock: seq<real>) returns (joblocks: map<LockId, ClientId>)
      requires Lists(order, lockImpl.locks) && |clock| == |order|
      ensures forall l :: l in joblocks <==>
          l in lockImpl.locks && SeenLive(order, clock, lockImpl.locks, autoUnlockTime, l)
      ensures forall l | l in joblocks :: joblocks[l] == lockImpl.locks[l].holder
    {
      var grouped := GetPeerLocks(order, clock);
      joblocks := map[];
      var todo := grouped.Keys;
      while todo != {}
        invariant todo <= grouped.Keys
        invariant forall l :: l in joblocks <==> exists c :: c in grouped.Keys - todo && l in grouped[c]
        invariant forall l | l in joblocks :: joblocks[l] == lockImpl.locks[l].holder
        decreases todo
      {
        var peer :| peer in todo;
        ghost var before := joblocks;
        for i := 0 to |grouped[peer]|
          invariant forall l :: l in joblocks <==> l in before || l in grouped[peer][..i]
          invariant forall l | l in joblocks :: joblocks[l] == lockImpl.locks[l].holder
        {
          var lock := grouped[peer][i];
          assert lock in grouped[peer];
          joblocks := joblocks[lock := peer];
          assert grouped[peer][..i + 1] == grouped[peer][..i] + [lock];
        }
        assert grouped[peer][..|grouped[peer]|] == grouped[peer];
        todo := todo - {peer};
      }
      forall l | l in lockImpl.locks && SeenLive(order, clock, lockImpl.locks, autoUnlockTime, l)
        ensures l in joblocks
      {
        var c := lockImpl.locks[l].holder;
        assert c in grouped && l in grouped[c];
      }
    }
  }

  // ---------------------------------------------------------------- reading the table

  ghost predicate SeenLive(order: seq<LockId>, clock: seq<real>, tbl: Table, ttl: real, l: LockId)
    requires |clock| == |order|
  {
    exists i :: 0 <= i < |order| && order[i] == l && l in tbl && Live(tbl[l], ttl, clock[i])
  }

  lemma SeenLiveStep(order: seq<LockId>, clock: seq<real>, tbl: Table, ttl: real, i: nat)
    requires i < |order| == |clock| && Lists(order, tbl) && order[i] in tbl
    ensures forall l :: SeenLive(order[..i + 1], clock[..i + 1], tbl, ttl, l) <==>
        SeenLive(order[..i], clock[..i], tbl, ttl, l) || (l == order[i] && Live(tbl[l], ttl, clock[i]))
  {
    forall l
      ensures SeenLive(order[..i + 1], clock[..i + 1], tbl, ttl, l) <==>
        SeenLive(order[..i], clock[..i], tbl, ttl, l) || (l == order[i] && Live(tbl[l], ttl, clock[i]))
    {
      if l == order[i] && Live(tbl[l], ttl, clock[i]) {
        assert order[..i + 1][i] == l && clock[..i + 1][i] == clock[i];
      }
      if SeenLive(order[..i], clock[..i], tbl, ttl, l) {
        var n :| 0 <= n < i && order[..i][n] == l && Live(tbl[l], ttl, clock[..i][n]);
        assert order[..i + 1][n] == l && clock[..i + 1][n] == clock[n];
      }
      if SeenLive(order[..i + 1], clock[..i + 1], tbl, ttl, l) {
        var n :| 0 <= n < i + 1 && order[..i + 1][n] == l && Live(tbl[l], ttl, clock[..i + 1][n]);
        if n < i {
          assert order[..i][n] == l && clock[..i][n] == clock[n];
        }
      }
    }
  }

  /** Each lock is judged by the clock reading of its own turn. */
  lemma SeenAtOwnReading(order: seq<LockId>, clock: seq<real>, tbl: Table, ttl: real, i: nat)
    requires i < |order| == |clock| && Lists(order, tbl)
    ensures order[i] in tbl
    ensures SeenLive(order, clock, tbl, ttl, order[i]) <==> clock[i] - tbl[order[i]].time < ttl
  {
    assert order[i] in tbl;
  }

  /** Under a clock that reads between `begin` and `end` throughout, what is still live at the end is
      seen, and what was already dead at the start is not. */
  lemma SeenLiveWindow(order: seq<LockId>, clock: seq<real>, tbl: Table, ttl: real, l: LockId, begin: real, end: real)
    requires |clock| == |order| && Lists(order, tbl) && l in tbl
    requires forall i | 0 <= i < |clock| :: begin <= clock[i] <= end
    ensures Live(tbl[l], ttl, end) ==> SeenLive(order, clock, tbl, ttl, l)
    ensures SeenLive(order, clock, tbl, ttl, l) ==> Live(tbl[l], ttl, begin)
  {
    assert l in order;
    var i :| 0 <= i < |order| && order[i] == l;
    assert begin <= clock[i] <= end;
  }

  // ---------------------------------------------------------------- answers of acquireJob

  predicate Answer(ttl: real, attempt: real, reply: Reply, acquireTime: real) {
    reply == Applied(true) && acquireTime - attempt <= ttl / 2.0
  }

  predicate GivesUp(ttl: real, attempt: real, reply: Reply, acquireTime: real) {
    reply == Applied(true) && acquireTime - attempt > ttl / 2.0
  }

  /** A true answer is worth half the timeout from the moment it is returned, without any prolongation:
      until then `c` owns the lock on every replica that has applied the command, and nobody else owns
      it anywhere, but for replicas that lag behind the other client's own release. */
  lemma TrueAnswerIsExclusive(
    ttl: real, log: seq<Command>, i: nat, j: nat, l: LockId, c: ClientId, attempt: real,
    reply: Reply, acquireTime: real, now: real)
    requires i < j <= |log| && log[i] == Acquire(l, c, attempt)
    requires reply == Applied(Grants(TableAt(ttl, log, i), ttl, l, c, attempt))
    requires Answer(ttl, attempt, reply, acquireTime) && now < acquireTime + ttl / 2.0
    requires ClientOrdered(log) && StampedBy(log, 0, |log|, now)
    requires !ReleasedBetween(log, i, |log|, l, c)
    ensures IsAcquired(TableAt(ttl, log, j), ttl, l, c, now)
    ensures forall k, d | 0 <= k <= |log| && d != c && IsAcquired(TableAt(ttl, log, k), ttl, l, d, now) ::
        k <= i && ReleasedBetween(log, k, i, l, d)
  {
    GrantIsExclusive(ttl, log, i, j, l, c, attempt, now);
  }

  /** A false answer leaves the caller without the lock once all it issued is applied (command `r` is
      the release it issued, if it gave up) - unless the wait timed out and the command went through
      after all, in which case it holds a lock it was told it does not have. */
  lemma FalseAnswer(
    ttl: real, log: seq<Command>, i: nat, r: nat, l: LockId, c: ClientId, attempt: real,
    reply: Reply, acquireTime: real)
    requires i <= r < |log| && log[i] == Acquire(l, c, attempt)
    requires reply == TimedOut || reply == Applied(Grants(TableAt(ttl, log, i), ttl, l, c, attempt))
    requires !Answer(ttl, attempt, reply, acquireTime)
    requires if GivesUp(ttl, attempt, reply, acquireTime) then log[r] == Release(l, c) else r == i
    ensures (l in TableAt(ttl, log, r + 1) && TableAt(ttl, log, r + 1)[l].holder == c) <==>
            reply == TimedOut && Grants(TableAt(ttl, log, i), ttl, l, c, attempt)
  {
    assert TableAt(ttl, log, r + 1) == Apply(TableAt(ttl, log, r), ttl, log[r]);
  }

  // ---------------------------------------------------------------- the thread keeps leases alive

  lemma NothingIssued(polls: seq<Poll>, last: real, ttl: real)
    ensures IssuesAt(polls, 0, last, ttl, [])
  {
  }

  lemma InRange(polls: seq<Poll>, n: nat, last: real, ttl: real, at: seq<nat>)
    requires n <= |polls| && IssuesAt(polls, n, last, ttl, at)
    ensures forall m | 0 <= m < |at| :: at[m] < n
  {
  }

  lemma TurnSkipped(polls: seq<Poll>, n: nat, last: real, ttl: real, at: seq<nat>)
    requires n < |polls| && IssuesAt(polls, n, last, ttl, at)
    requires |at| > 0 ==> at[|at| - 1] < |polls|
    requires polls[n].leader ==> polls[n].check - MarkBefore(polls, last, at, |at|) < ttl / 4.0
    ensures IssuesAt(polls, n + 1, last, ttl, at)
  {
    forall i: nat, m: nat | Between(at, i, m) && i < n + 1 && polls[i].leader
      ensures polls[i].check - MarkBefore(polls, last, at, m) < ttl / 4.0
    {
      if i == n {
        assert m == |at|;
      }
    }
  }

  lemma TurnIssued(polls: seq<Poll>, n: nat, last: real, ttl: real, at: seq<nat>)
    requires n < |polls| && IssuesAt(polls, n, last, ttl, at)
    requires |at| > 0 ==> at[|at| - 1] < |polls|
    requires polls[n].leader && polls[n].check - MarkBefore(polls, last, at, |at|) >= ttl / 4.0
    ensures IssuesAt(polls, n + 1, last, ttl, at + [n])
  {
    var next := at + [n];
    forall m: nat | m < |next| ensures Due(polls, last, ttl, next, m) {
      if m < |at| {
        assert Due(polls, last, ttl, at, m);
      }
    }
    forall i: nat, m: nat | Between(next, i, m) && i < n + 1 && polls[i].leader
      ensures polls[i].check - MarkBefore(polls, last, next, m) < ttl / 4.0
    {
      assert m <= |at|;
      assert Between(at, i, m);
    }
  }

  /** The polls and the starting value decide which turns issue. */
  lemma IssuesDecided(polls: seq<Poll>, n: nat, last: real, ttl: real, at: seq<nat>, bt: seq<nat>)
    requires n <= |polls| && IssuesAt(polls, n, last, ttl, at) && IssuesAt(polls, n, last, ttl, bt)
    ensures at == bt
  {
    hide IssuesAt;
    if |at| <= |bt| {
      IssuesAgree(polls, n, last, ttl, at, bt, |at|);
      NoneBehind(polls, n, last, ttl, at, bt);
    } else {
      IssuesAgree(polls, n, last, ttl, bt, at, |bt|);
      NoneBehind(polls, n, last, ttl, bt, at);
    }
  }

  lemma NoneBehind(polls: seq<Poll>, n: nat, last: real, ttl: real, at: seq<nat>, bt: seq<nat>)
    requires n <= |polls| && IssuesAt(polls, n, last, ttl, at) && IssuesAt(polls, n, last, ttl, bt)
    requires |at| <= |bt| && at == bt[..|at|]
    ensures at == bt
  {
    assert |at| < |bt| ==> Due(polls, last, ttl, bt, |at|) && !Between(at, bt[|at|], |at|);
  }

  lemma {:induction false} IssuesAgree(
    polls: seq<Poll>, n: nat, last: real, ttl: real, at: seq<nat>, bt: seq<nat>, m: nat)
    requires n <= |polls| && IssuesAt(polls, n, last, ttl, at) && IssuesAt(polls, n, last, ttl, bt)
    requires m <= |at| && m <= |bt|
    ensures at[..m] == bt[..m]
  {
    if m > 0 {
      IssuesAgree(polls, n, last, ttl, at, bt, m - 1);
      NotSooner(polls, n, last, ttl, at, bt, m - 1);
      NotSooner(polls, n, last, ttl, bt, at, m - 1);
      assert at[..m] == at[..m - 1] + [at[m - 1]] && bt[..m] == bt[..m - 1] + [bt[m - 1]];
    }
  }

  lemma NotSooner(polls: seq<Poll>, n: nat, last: real, ttl: real, at: seq<nat>, bt: seq<nat>, m: nat)
    requires n <= |polls| && IssuesAt(polls, n, last, ttl, at) && IssuesAt(polls, n, last, ttl, bt)
    requires m < |at| && m < |bt| && at[..m] == bt[..m]
    ensures at[m] >= bt[m]
  {
    assert Due(polls, last, ttl, at, m);
    if m > 0 {
      assert at[m - 1] == at[..m][m - 1] == bt[..m][m - 1] == bt[m - 1];
    }
    assert !Between(bt, at[m], m);
  }

  /** A turn without a leader costs nothing: it neither issues nor delays a later issue. */
  lemma LeaderlessTurn(polls: seq<Poll>, n: nat, last: real, ttl: real, at: seq<nat>)
    requires n < |polls| && IssuesAt(polls, n, last, ttl, at) && !polls[n].leader
    ensures |at| > 0 ==> at[|at| - 1] < |polls|
    ensures IssuesAt(polls, n + 1, last, ttl, at)
    ensures n + 1 < |polls| && polls[n + 1].leader && polls[n + 1].check - MarkBefore(polls, last, at, |at|) >= ttl / 4.0 ==>
        IssuesAt(polls, n + 2, last, ttl, at + [n + 1])
  {
    InRange(polls, n, last, ttl, at);
    TurnSkipped(polls, n, last, ttl, at);
    if n + 1 < |polls| && polls[n + 1].leader && polls[n + 1].check - MarkBefore(polls, last, at, |at|) >= ttl / 4.0 {
      TurnIssued(polls, n + 1, last, ttl, at);
    }
  }

  /** Turns `i` and `j` have a leader, and no turn between them has. */
  predicate NextLed(polls: seq<Poll>, i: nat, j: nat) {
    i < j < |polls| && polls[i].leader && polls[j].leader && forall k | i < k < j :: !polls[k].leader
  }

  predicate FirstLed(polls: seq<Poll>, i: nat) {
    i < |polls| && polls[i].leader && forall k | 0 <= k < i :: !polls[k].leader
  }

  predicate LastLed(polls: seq<Poll>, i: nat) {
    i < |polls| && polls[i].leader && forall k | i < k < |polls| :: !polls[k].leader
  }

  /** Successive turns with a leader are at most `period` apart. Turns without one may come at any time. */
  ghost predicate Timely(polls: seq<Poll>, period: real) {
    && (forall i | 0 <= i < |polls| && polls[i].leader :: polls[i].check <= polls[i].mark <= polls[i].stamp)
    && (forall i: nat, j: nat | NextLed(polls, i, j) :: polls[j].stamp <= polls[i].check + period)
  }

  lemma {:induction false} LedBefore(polls: seq<Poll>, i: nat, j: nat) returns (k: nat)
    requires i < j < |polls| && polls[i].leader && polls[j].leader
    ensures i <= k && NextLed(polls, k, j)
    decreases j - i
  {
    k := i;
    if !NextLed(polls, i, j) {
      var n :| i < n < j && polls[n].leader;
      k := LedBefore(polls, n, j);
    }
  }

  /** The thread's own bookkeeping bounds the gaps: a quarter of the timeout plus one turn. The last turn
      with a leader is no more than a quarter of the timeout behind the last issue. */
  lemma IssueGaps(polls: seq<Poll>, last: real, ttl: real, period: real, at: seq<nat>)
    requires Timely(polls, period) && IssuesAt(polls, |polls|, last, ttl, at) && ttl >= 0.0
    ensures forall m | 0 <= m < |at| :: at[m] < |polls|
    ensures GapsAtMost(Stamps(polls, at), ttl / 4.0 + period)
    ensures forall i: nat | FirstLed(polls, i) && polls[i].stamp <= last + ttl / 4.0 + period ::
        at != [] ==> polls[at[0]].stamp <= last + ttl / 4.0 + period
    ensures forall i: nat | LastLed(polls, i) ::
        polls[i].check <= (if at == [] then last else polls[at[|at| - 1]].stamp) + ttl / 4.0
  {
    InRange(polls, |polls|, last, ttl, at);
    forall m | 0 <= m < |at| - 1 ensures polls[at[m + 1]].stamp - polls[at[m]].stamp <= ttl / 4.0 + period {
      GapBefore(polls, last, ttl, period, at, m + 1);
    }
    forall i: nat | FirstLed(polls, i) && polls[i].stamp <= last + ttl / 4.0 + period && at != []
      ensures polls[at[0]].stamp <= last + ttl / 4.0 + period
    {
      GapInFront(polls, last, ttl, period, at, i);
    }
    forall i: nat | LastLed(polls, i)
      ensures polls[i].check <= (if at == [] then last else polls[at[|at| - 1]].stamp) + ttl / 4.0
    {
      GapBehind(polls, last, ttl, period, at, i);
    }
  }

  lemma GapBefore(polls: seq<Poll>, last: real, ttl: real, period: real, at: seq<nat>, m: nat)
    requires Timely(polls, period) && IssuesAt(polls, |polls|, last, ttl, at) && ttl >= 0.0 && 0 < m < |at|
    ensures at[m - 1] < |polls| && at[m] < |polls|
    ensures polls[at[m]].stamp <= polls[at[m - 1]].stamp + ttl / 4.0 + period
  {
    assert Due(polls, last, ttl, at, m - 1) && Due(polls, last, ttl, at, m);
    var k := LedBefore(polls, at[m - 1], at[m]);
    if k != at[m - 1] {
      assert Between(at, k, m);
    }
  }

  lemma GapInFront(polls: seq<Poll>, last: real, ttl: real, period: real, at: seq<nat>, first: nat)
    requires Timely(polls, period) && IssuesAt(polls, |polls|, last, ttl, at) && at != []
    requires FirstLed(polls, first) && polls[first].stamp <= last + ttl / 4.0 + period
    ensures at[0] < |polls| && polls[at[0]].stamp <= last + ttl / 4.0 + period
  {
    assert Due(polls, last, ttl, at, 0);
    if at[0] != first {
      var k := LedBefore(polls, first, at[0]);
      assert Between(at, k, 0);
    }
  }

  lemma GapBehind(polls: seq<Poll>, last: real, ttl: real, period: real, at: seq<nat>, i: nat)
    requires Timely(polls, period) && IssuesAt(polls, |polls|, last, ttl, at) && ttl >= 0.0 && LastLed(polls, i)
    ensures |at| > 0 ==> at[|at| - 1] < |polls|
    ensures polls[i].check <= (if at == [] then last else polls[at[|at| - 1]].stamp) + ttl / 4.0
  {
    if at == [] {
      assert Between(at, i, 0);
    } else {
      assert Due(polls, last, ttl, at, |at| - 1);
      if i != at[|at| - 1] {
        assert Between(at, i, |at|);
      }
    }
  }

  /** A first turn with a leader that is due issues. */
  lemma FirstIssue(polls: seq<Poll>, last: real, ttl: real, at: seq<nat>, first: nat)
    requires IssuesAt(polls, |polls|, last, ttl, at) && FirstLed(polls, first) && polls[first].check - last >= ttl / 4.0
    ensures at != [] && at[0] == first
  {
    assert !Between(at, first, 0);
    assert Due(polls, last, ttl, at, 0);
  }

  /** A lock acquired while the thread is running is never lost while turn and commit delay together
      stay within three quarters of the timeout. `first` and `end` are the first and last turn with a
      leader. */
  lemma ThreadKeepsLeases(
    ttl: real, log: seq<Command>, commit: seq<real>, c: ClientId, l: LockId, m: nat, start: real,
    polls: seq<Poll>, last: real, at: seq<nat>, first: nat, end: nat, period: real, delay: real, j: nat)
    requires m < j <= |log| && log[m] == Acquire(l, c, start)
    requires Grants(TableAt(ttl, log, m), ttl, l, c, start)
    requires Committed(log, commit) && ClientOrdered(log) && !ReleasedBetween(log, m, |log|, l, c)
    requires Timely(polls, period) && IssuesAt(polls, |polls|, last, ttl, at) && ttl >= 0.0 && period >= 0.0
    requires FirstLed(polls, first) && LastLed(polls, end)
    requires polls[first].check - last >= ttl / 4.0 && polls[first].stamp <= start + ttl / 4.0 + period
    requires commit[|log| - 1] <= polls[end].check + period + delay
    requires forall n | 0 <= n < |at| :: at[n] < |polls| && CommittedWithin(log, commit, c, polls[at[n]].stamp, delay)
    requires period + delay <= 3.0 * ttl / 4.0
    ensures HeldSince(TableAt(ttl, log, j), l, c, start)
  {
    IssueGaps(polls, last, ttl, period, at);
    FirstIssue(polls, last, ttl, at, first);
    KeepAlive(ttl, log, commit, c, l, m, start, Stamps(polls, at), ttl / 4.0 + period, delay, j);
  }
}
