/** Safety of the lease locks over whole logs: what a client may conclude from a stale replica, what
    keeps a lease alive, and what a successful tryAcquire guarantees. Replicas are prefixes of one
    agreed log; `now` is a clock shared by all clients. */
module LeaseSafety {
  import opened LeaseTable

  /** Client `c` holds `l` with a refresh time of at least `since`. */
  predicate HeldSince(tbl: Table, l: LockId, c: ClientId, since: real) {
    l in tbl && tbl[l].holder == c && tbl[l].time >= since
  }

  /** Each client's own stamped commands enter the log in the order of their timestamps. */
  ghost predicate ClientOrdered(log: seq<Command>) {
    forall i, j | 0 <= i < j < |log| && Stamped(log[i]) && Stamped(log[j]) && log[i].client == log[j].client ::
      log[i].time <= log[j].time
  }

  ghost predicate StampedBy(log: seq<Command>, i: nat, j: nat, now: real)
    requires i <= j <= |log|
  {
    forall k | i <= k < j && Stamped(log[k]) :: log[k].time <= now
  }

  ghost predicate ReleasedBetween(log: seq<Command>, i: nat, j: nat, l: LockId, c: ClientId)
    requires i <= j <= |log|
  {
    exists k :: i <= k < j && log[k] == Release(l, c)
  }

  // ---------------------------------------------------------------- one step

  /** The commands that leave a lease of age-time `since` in its holder's hands, no older than it was. */
  predicate Spares(cmd: Command, ttl: real, l: LockId, c: ClientId, since: real) {
    match cmd
    case Acquire(l2, c2, t) => l2 != l || (if c2 == c then t >= since else t - since <= ttl)
    case Prolongate(c2, t) => t - since <= ttl && (c2 == c ==> t >= since)
    case Release(l2, c2) => !(l2 == l && c2 == c)
  }

  /** Exactly which commands a lease survives without getting older. */
  lemma LeaseSurvivesStep(tbl: Table, ttl: real, cmd: Command, l: LockId, c: ClientId)
    requires l in tbl && tbl[l].holder == c
    ensures HeldSince(Apply(tbl, ttl, cmd), l, c, tbl[l].time) <==> Spares(cmd, ttl, l, c, tbl[l].time)
  {
  }

  /** Every lease in a table was written by an earlier stamped command of its holder. */
  lemma {:induction false} LeaseHasOrigin(ttl: real, log: seq<Command>, k: nat, l: LockId) returns (m: nat)
    requires k <= |log| && l in TableAt(ttl, log, k)
    ensures m < k && Stamped(log[m])
    ensures log[m].client == TableAt(ttl, log, k)[l].holder && log[m].time == TableAt(ttl, log, k)[l].time
  {
    var before := TableAt(ttl, log, k - 1);
    if l in before && before[l] == TableAt(ttl, log, k)[l] {
      m := LeaseHasOrigin(ttl, log, k - 1, l);
    } else {
      m := k - 1;
    }
  }

  // ---------------------------------------------------------------- stale replicas

  /** A lease that is still live at `now` stays with its holder, and never gets older, in every longer
      prefix whose commands were all stamped by `now`, unless the holder releases it. */
  lemma {:induction false} LeasePersists(
    ttl: real, log: seq<Command>, i: nat, j: nat, l: LockId, c: ClientId, now: real)
    requires i <= j <= |log| && ClientOrdered(log) && StampedBy(log, i, j, now)
    requires IsAcquired(TableAt(ttl, log, i), ttl, l, c, now)
    requires !ReleasedBetween(log, i, j, l, c)
    ensures HeldSince(TableAt(ttl, log, j), l, c, TableAt(ttl, log, i)[l].time)
    decreases j
  {
    if i < j {
      LeasePersists(ttl, log, i, j - 1, l, c, now);
      var tbl := TableAt(ttl, log, j - 1);
      var m := LeaseHasOrigin(ttl, log, j - 1, l);
      LeaseSurvivesStep(tbl, ttl, log[j - 1], l, c);
    }
  }

  /** Mutual exclusion across stale replicas: if `c` owns the lock on the shorter prefix and `d` owns it
      on the longer one at the same time, then `c` released it in between. */
  lemma LeaseExclusion(
    ttl: real, log: seq<Command>, i: nat, j: nat, l: LockId, c: ClientId, d: ClientId, now: real)
    requires i <= j <= |log| && ClientOrdered(log) && StampedBy(log, i, j, now)
    requires IsAcquired(TableAt(ttl, log, i), ttl, l, c, now)
    requires IsAcquired(TableAt(ttl, log, j), ttl, l, d, now)
    requires c != d
    ensures ReleasedBetween(log, i, j, l, c)
  {
    if !ReleasedBetween(log, i, j, l, c) {
      LeasePersists(ttl, log, i, j, l, c, now);
    }
  }

  /** The ordering assumption is needed: acquire and prolongate overwrite the stored time, so a refresh
      that arrives late takes the lease back in time and a second owner appears beside the first. */
  lemma LateRefreshBreaksExclusion(l: LockId, c: ClientId, d: ClientId) returns (log: seq<Command>)
    requires c != d
    ensures |log| == 3 && StampedBy(log, 1, 3, 105.0) && !ClientOrdered(log)
    ensures IsAcquired(TableAt(60.0, log, 1), 60.0, l, c, 105.0)
    ensures IsAcquired(TableAt(60.0, log, 3), 60.0, l, d, 105.0)
    ensures !ReleasedBetween(log, 1, 3, l, c)
  {
    log := [Acquire(l, c, 100.0), Prolongate(c, 40.0), Acquire(l, d, 101.0)];
    assert log[0].time > log[1].time;
    assert TableAt(60.0, log, 0) == map[];
    assert TableAt(60.0, log, 1) == map[l := Lease(c, 100.0)];
    assert TableAt(60.0, log, 2) == map[l := Lease(c, 40.0)];
    assert TableAt(60.0, log, 3) == map[l := Lease(d, 101.0)];
  }

  /** So is the shared clock: a command stamped ahead of `now` takes over a lease its holder still sees. */
  lemma FastClockBreaksExclusion(l: LockId, c: ClientId, d: ClientId) returns (log: seq<Command>)
    requires c != d
    ensures |log| == 2 && ClientOrdered(log) && !StampedBy(log, 1, 2, 105.0)
    ensures IsAcquired(TableAt(60.0, log, 1), 60.0, l, c, 105.0)
    ensures IsAcquired(TableAt(60.0, log, 2), 60.0, l, d, 105.0)
    ensures !ReleasedBetween(log, 1, 2, l, c)
  {
    log := [Acquire(l, c, 100.0), Acquire(l, d, 161.0)];
    assert log[1].time == 161.0;
    assert TableAt(60.0, log, 0) == map[];
    assert TableAt(60.0, log, 1) == map[l := Lease(c, 100.0)];
    assert TableAt(60.0, log, 2) == map[l := Lease(d, 161.0)];
  }

  // ---------------------------------------------------------------- exactly when exclusion survives a command

  /** The table after applying the first `k` of further commands to `tbl`. */
  function TableFrom(tbl: Table, ttl: real, log: seq<Command>, k: nat): Table
    requires k <= |log|
  {
    if k == 0 then tbl else Apply(TableFrom(tbl, ttl, log, k - 1), ttl, log[k - 1])
  }

  /** A replica that lags `k - i` commands behind another reaches it by applying them. */
  lemma {:induction false} TableFromPrefix(ttl: real, log: seq<Command>, i: nat, k: nat)
    requires i <= k <= |log|
    ensures TableAt(ttl, log, k) == TableFrom(TableAt(ttl, log, i), ttl, log[i..], k - i)
    decreases k
  {
    if i < k {
      TableFromPrefix(ttl, log, i, k - 1);
    }
  }

  /** Further commands, all stamped by `now`, in which `c` neither releases `l` nor is late: its own are
      stamped no earlier than `since`. */
  ghost predicate Continues(log: seq<Command>, l: LockId, c: ClientId, since: real, now: real) {
    && StampedBy(log, 0, |log|, now)
    && (forall k | 0 <= k < |log| && Stamped(log[k]) && log[k].client == c :: log[k].time >= since)
    && !ReleasedBetween(log, 0, |log|, l, c)
  }

  /** After `cmd` and however the log continues, `d` never owns `l` at a time at which `c` still owns it on
      a replica that has stopped at `tbl`. */
  ghost predicate Exclusive(tbl: Table, ttl: real, cmd: Command, l: LockId, c: ClientId, d: ClientId)
    requires l in tbl
  {
    forall log, now | IsAcquired(tbl, ttl, l, c, now) && Continues(log, l, c, tbl[l].time, now) ::
      !IsAcquired(TableFrom(Apply(tbl, ttl, cmd), ttl, log, |log|), ttl, l, d, now)
  }

  /** Exclusion survives a command exactly when the lease does: a holder's own refresh must not be stamped
      before the lease it refreshes, and nobody's command may be stamped more than the timeout after it.
      Every command that breaks either bound, whatever the table, lets two clients own the lock. */
  lemma ExclusionExact(tbl: Table, ttl: real, cmd: Command, l: LockId, c: ClientId, d: ClientId)
    requires ttl > 0.0 && c != d && l in tbl && tbl[l].holder == c
    ensures Exclusive(tbl, ttl, cmd, l, c, d) <==> Spares(cmd, ttl, l, c, tbl[l].time)
  {
    var next := Apply(tbl, ttl, cmd);
    LeaseSurvivesStep(tbl, ttl, cmd, l, c);
    if Spares(cmd, ttl, l, c, tbl[l].time) {
      forall log, now | IsAcquired(tbl, ttl, l, c, now) && Continues(log, l, c, tbl[l].time, now)
        ensures !IsAcquired(TableFrom(next, ttl, log, |log|), ttl, l, d, now)
      {
        HeldThroughout(next, ttl, log, |log|, l, c, tbl[l].time, now);
      }
    } else {
      var log, now := SecondOwner(tbl, ttl, cmd, l, c, d);
      assert !Exclusive(tbl, ttl, cmd, l, c, d);
    }
  }

  lemma {:induction false} HeldThroughout(
    tbl: Table, ttl: real, log: seq<Command>, k: nat, l: LockId, c: ClientId, since: real, now: real)
    requires k <= |log| && HeldSince(tbl, l, c, since) && now - since < ttl && Continues(log, l, c, since, now)
    ensures HeldSince(TableFrom(tbl, ttl, log, k), l, c, since)
  {
    if k > 0 {
      HeldThroughout(tbl, ttl, log, k - 1, l, c, since, now);
      assert log[k - 1] != Release(l, c);
    }
  }

  /** How the second owner comes about: `d` acquires as soon as the shortened, dropped or taken over lease
      lets it, while the first replica still shows the lease as it was. */
  lemma SecondOwner(tbl: Table, ttl: real, cmd: Command, l: LockId, c: ClientId, d: ClientId)
    returns (log: seq<Command>, now: real)
    requires ttl > 0.0 && c != d && l in tbl && tbl[l].holder == c
    requires !Spares(cmd, ttl, l, c, tbl[l].time)
    ensures IsAcquired(tbl, ttl, l, c, now) && Continues(log, l, c, tbl[l].time, now)
    ensures IsAcquired(TableFrom(Apply(tbl, ttl, cmd), ttl, log, |log|), ttl, l, d, now)
  {
    var next := Apply(tbl, ttl, cmd);
    var since := tbl[l].time;
    now := if !cmd.Release? && cmd.client == c && cmd.time < since then (since + cmd.time) / 2.0 + ttl else since;
    if l in next && next[l].holder != c {
      log := [Release(l, next[l].holder), Acquire(l, d, now)];
      assert TableFrom(next, ttl, log, 1) == next - {l};
    } else {
      log := [Acquire(l, d, now)];
      assert TableFrom(next, ttl, log, 0) == next;
    }
    assert TableFrom(next, ttl, log, |log|)[l] == Lease(d, now);
  }

  // ---------------------------------------------------------------- tryAcquire

  /** `c` acquires at `attempt` as command `i` and is granted. As long as the lease of that attempt is
      live, and `c` does not release, `c` owns the lock on every replica that has applied the command,
      and no other client owns it on any replica at all, except on one that has yet to apply that
      client's own release. */
  lemma GrantIsExclusive(
    ttl: real, log: seq<Command>, i: nat, j: nat, l: LockId, c: ClientId, attempt: real, now: real)
    requires i < j <= |log| && log[i] == Acquire(l, c, attempt)
    requires Grants(TableAt(ttl, log, i), ttl, l, c, attempt)
    requires ClientOrdered(log) && StampedBy(log, 0, |log|, now) && now - attempt < ttl
    requires !ReleasedBetween(log, i, |log|, l, c)
    ensures IsAcquired(TableAt(ttl, log, j), ttl, l, c, now)
    ensures forall k, d | 0 <= k <= |log| && d != c && IsAcquired(TableAt(ttl, log, k), ttl, l, d, now) ::
        k <= i && ReleasedBetween(log, k, i, l, d)
  {
    assert TableAt(ttl, log, i + 1)[l] == Lease(c, attempt);
    assert log[i].time <= now;
    forall m | i < m <= |log| ensures IsAcquired(TableAt(ttl, log, m), ttl, l, c, now) {
      LeasePersists(ttl, log, i + 1, m, l, c, now);
    }
    forall k, d | 0 <= k <= |log| && d != c && IsAcquired(TableAt(ttl, log, k), ttl, l, d, now)
      ensures k <= i && ReleasedBetween(log, k, i, l, d)
    {
      if !ReleasedBetween(log, k, i, l, d) {
        LeasePersists(ttl, log, k, i, l, d, now);
      }
    }
  }

  // ---------------------------------------------------------------- keep-alive

  /** Commit times of a log: nondecreasing, and never before the command was stamped. */
  ghost predicate Committed(log: seq<Command>, commit: seq<real>) {
    && |commit| == |log|
    && (forall i, j | 0 <= i < j < |log| :: commit[i] <= commit[j])
    && (forall i | 0 <= i < |log| && Stamped(log[i]) :: log[i].time <= commit[i])
  }

  ghost predicate GapsAtMost(issues: seq<real>, gap: real) {
    forall n | 0 <= n < |issues| - 1 :: issues[n + 1] - issues[n] <= gap
  }

  /** The prolongation issued at `issue` is in the log, committed within `delay`. */
  ghost predicate CommittedWithin(log: seq<Command>, commit: seq<real>, c: ClientId, issue: real, delay: real)
    requires |commit| == |log|
  {
    exists k :: 0 <= k < |log| && log[k] == Prolongate(c, issue) && commit[k] <= issue + delay
  }

  /** `c` prolongs at `issues`: the first no later than `gap` after `start`, each next one within `gap`
      of the last, up to the end of the log; each is committed within `delay` or is still in flight. */
  ghost predicate KeepsProlonging(
    log: seq<Command>, commit: seq<real>, c: ClientId, issues: seq<real>, start: real, gap: real, delay: real)
    requires |commit| == |log| > 0
  {
    var end := commit[|log| - 1];
    && |issues| > 0 && GapsAtMost(issues, gap)
    && issues[0] <= start + gap
    && end <= issues[|issues| - 1] + gap + delay
    && forall n | 0 <= n < |issues| && issues[n] + delay < end :: CommittedWithin(log, commit, c, issues[n], delay)
  }

  /** A walk with steps of at most `gap` from below `x` to within `gap` of it has a point in reach of `x`. */
  lemma {:induction false} PointInReach(issues: seq<real>, gap: real, x: real) returns (n: nat)
    requires |issues| > 0 && GapsAtMost(issues, gap)
    requires issues[0] < x <= issues[|issues| - 1] + gap
    ensures n < |issues| && issues[n] < x <= issues[n] + gap
  {
    var last := |issues| - 1;
    if issues[last] < x {
      n := last;
    } else {
      n := PointInReach(issues[..last], gap, x);
    }
  }

  /** Keep-alive: if gap plus delay fit in the timeout, the lock acquired by command `m` stays with `c`
      on every later prefix; no takeover and no expiry, by anyone's command, ever removes it. */
  lemma {:induction false} KeepAlive(
    ttl: real, log: seq<Command>, commit: seq<real>, c: ClientId, l: LockId, m: nat, start: real,
    issues: seq<real>, gap: real, delay: real, j: nat)
    requires m < j <= |log| && log[m] == Acquire(l, c, start)
    requires Grants(TableAt(ttl, log, m), ttl, l, c, start)
    requires Committed(log, commit) && ClientOrdered(log)
    requires KeepsProlonging(log, commit, c, issues, start, gap, delay)
    requires gap + delay <= ttl
    requires !ReleasedBetween(log, m, |log|, l, c)
    ensures HeldSince(TableAt(ttl, log, j), l, c, start)
    ensures forall k | m < k < j && log[k].Prolongate? && log[k].client == c ::
        TableAt(ttl, log, j)[l].time >= log[k].time
    decreases j
  {
    if m + 1 < j {
      KeepAlive(ttl, log, commit, c, l, m, start, issues, gap, delay, j - 1);
      var tbl := TableAt(ttl, log, j - 1);
      var origin := LeaseHasOrigin(ttl, log, j - 1, l);
      FreshEnough(ttl, log, commit, c, l, m, start, issues, gap, delay, j - 1);
      LeaseSurvivesStep(tbl, ttl, log[j - 1], l, c);
    } else {
      assert TableAt(ttl, log, j)[l] == Lease(c, start);
    }
  }

  /** At the moment command `k` commits, the lease is no older than gap plus delay. */
  lemma FreshEnough(
    ttl: real, log: seq<Command>, commit: seq<real>, c: ClientId, l: LockId, m: nat, start: real,
    issues: seq<real>, gap: real, delay: real, k: nat)
    requires m < k < |log| && log[m] == Acquire(l, c, start)
    requires Committed(log, commit) && ClientOrdered(log)
    requires KeepsProlonging(log, commit, c, issues, start, gap, delay)
    requires HeldSince(TableAt(ttl, log, k), l, c, start)
    requires forall i | m < i < k && log[i].Prolongate? && log[i].client == c ::
        TableAt(ttl, log, k)[l].time >= log[i].time
    ensures commit[k] - TableAt(ttl, log, k)[l].time <= gap + delay
  {
    var x := commit[k] - delay;
    if issues[0] < x {
      var n := PointInReach(issues, gap, x);
      assert CommittedWithin(log, commit, c, issues[n], delay);
      var i :| 0 <= i < |log| && log[i] == Prolongate(c, issues[n]) && commit[i] <= issues[n] + delay;
      assert i < k;
      assert i != m;
    }
  }
}
