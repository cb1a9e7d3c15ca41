/** The replicated lock table: what one replica holds after a prefix of the agreed log, and the
    imperative class that applies the log's commands to its own copy. */
module LeaseTable {
  import opened Wrappers

  type LockId(==, !new)
  type ClientId(==, !new)

  /** The tuple stored under a lock: who holds it, and the issuing client's clock at its last refresh. */
  datatype Lease = Lease(holder: ClientId, time: real)

  type Table = map<LockId, Lease>

  /** The three replicated commands. Acquire and Prolongate carry the issuing client's timestamp. */
  datatype Command =
    | Acquire(lock: LockId, client: ClientId, time: real)
    | Prolongate(client: ClientId, time: real)
    | Release(lock: LockId, client: ClientId)

  predicate Stamped(cmd: Command) { !cmd.Release? }

  /** The takeover test of acquire, prolongate and notAcquired: strictly older than the timeout. */
  predicate Expired(lease: Lease, ttl: real, now: real) { now - lease.time > ttl }

  /** The ownership test of isAcquired and getPeerLocks: strictly younger than the timeout. */
  predicate Live(lease: Lease, ttl: real, now: real) { now - lease.time < ttl }

  predicate IsAcquired(tbl: Table, ttl: real, lock: LockId, client: ClientId, now: real) {
    lock in tbl && tbl[lock].holder == client && Live(tbl[lock], ttl, now)
  }

  predicate Grants(tbl: Table, ttl: real, lock: LockId, client: ClientId, now: real) {
    lock in tbl ==> Expired(tbl[lock], ttl, now) || tbl[lock].holder == client
  }

  function AcquireTable(tbl: Table, ttl: real, lock: LockId, client: ClientId, now: real): Table {
    if Grants(tbl, ttl, lock, client, now) then tbl[lock := Lease(client, now)] else tbl
  }

  function Refreshed(lease: Lease, client: ClientId, now: real): Lease {
    if lease.holder == client then Lease(client, now) else lease
  }

  /** Drop what has expired, refresh what is mine, keep the rest. */
  function ProlongateTable(tbl: Table, ttl: real, client: ClientId, now: real): Table {
    map l | l in tbl && !Expired(tbl[l], ttl, now) :: Refreshed(tbl[l], client, now)
  }

  function ReleaseTable(tbl: Table, lock: LockId, client: ClientId): Table {
    if lock in tbl && tbl[lock].holder == client then tbl - {lock} else tbl
  }

  function Apply(tbl: Table, ttl: real, cmd: Command): Table {
    match cmd
    case Acquire(l, c, t) => AcquireTable(tbl, ttl, l, c, t)
    case Prolongate(c, t) => ProlongateTable(tbl, ttl, c, t)
    case Release(l, c) => ReleaseTable(tbl, l, c)
  }

  /** The table of a replica that has applied the first `k` commands of the log. */
  function TableAt(ttl: real, log: seq<Command>, k: nat): Table
    requires k <= |log|
  {
    if k == 0 then map[] else Apply(TableAt(ttl, log, k - 1), ttl, log[k - 1])
  }

  /** Replicas that agree on the first `k` commands hold the same table. */
  lemma {:induction false} EqualPrefixesEqualTables(ttl: real, log1: seq<Command>, log2: seq<Command>, k: nat)
    requires k <= |log1| && k <= |log2| && log1[..k] == log2[..k]
    ensures TableAt(ttl, log1, k) == TableAt(ttl, log2, k)
  {
    if k > 0 {
      assert log1[..k][..k - 1] == log1[..k - 1] && log2[..k][..k - 1] == log2[..k - 1];
      assert log1[..k][k - 1] == log1[k - 1] && log2[..k][k - 1] == log2[k - 1];
      EqualPrefixesEqualTables(ttl, log1, log2, k - 1);
    }
  }

  /** The three ages of a lease: younger than the timeout it is its holder's; older, anyone's; and at
      exactly the timeout it is neither owned nor up for takeover, and survives anyone's prolongation. */
  lemma LeaseAges(tbl: Table, ttl: real, l: LockId, c: ClientId, now: real)
    requires l in tbl
    ensures IsAcquired(tbl, ttl, l, c, now) <==> tbl[l].holder == c && now - tbl[l].time < ttl
    ensures Grants(tbl, ttl, l, c, now) <==> tbl[l].holder == c || now - tbl[l].time > ttl
    ensures l in ProlongateTable(tbl, ttl, c, now) <==> now - tbl[l].time <= ttl
  {
  }

  /** What a granted acquire or a prolongation leaves behind. */
  lemma LeaseWritten(tbl: Table, ttl: real, l: LockId, c: ClientId, now: real)
    ensures var a := AcquireTable(tbl, ttl, l, c, now);
            && (Grants(tbl, ttl, l, c, now) ==> l in a && a[l] == Lease(c, now))
            && (!Grants(tbl, ttl, l, c, now) ==> a == tbl)
            && forall x | x != l :: (x in a <==> x in tbl) && (x in a ==> a[x] == tbl[x])
    ensures var p := ProlongateTable(tbl, ttl, c, now);
            && (forall x | x in p :: x in tbl && p[x] == Lease(tbl[x].holder, if tbl[x].holder == c then now else tbl[x].time))
            && (ttl >= 0.0 ==> forall x | x in p && p[x].holder == c :: now - p[x].time <= ttl)
    ensures var r := ReleaseTable(tbl, l, c);
            && !(l in r && r[l].holder == c)
            && forall x | !(x == l && x in tbl && tbl[x].holder == c) :: (x in r <==> x in tbl) && (x in r ==> r[x] == tbl[x])
  {
  }

  // ---------------------------------------------------------------- callback trace

  /** One callback: the lock and its previous holder if any, and the lock and its new holder if any. */
  datatype Change = Change(prev: Option<(LockId, Option<ClientId>)>, next: Option<(LockId, ClientId)>)

  /** A listener that sets on acquire and removes on release or expiry. */
  function Observe(view: map<LockId, ClientId>, ch: Change): map<LockId, ClientId> {
    match (ch.prev, ch.next)
    case (_, Some((l, c))) => view[l := c]
    case (Some((l, _)), None) => view - {l}
    case (None, None) => view
  }

  function Replay(changes: seq<Change>): map<LockId, ClientId> {
    if changes == [] then map[]
    else Observe(Replay(changes[..|changes| - 1]), changes[|changes| - 1])
  }

  function Holders(tbl: Table): map<LockId, ClientId> {
    map l | l in tbl :: tbl[l].holder
  }

  /** One callback more, for a lock that was set or dropped, keeps replay and holders in step. */
  lemma ReplaySet(changes: seq<Change>, tbl: Table, prev: Option<(LockId, Option<ClientId>)>, l: LockId, lease: Lease)
    requires Replay(changes) == Holders(tbl)
    ensures Replay(changes + [Change(prev, Some((l, lease.holder)))]) == Holders(tbl[l := lease])
  {
    var ch := Change(prev, Some((l, lease.holder)));
    assert (changes + [ch])[..|changes|] == changes;
  }

  lemma ReplayDrop(changes: seq<Change>, tbl: Table, l: LockId, prev: ClientId)
    requires Replay(changes) == Holders(tbl)
    ensures Replay(changes + [Dropped(l, prev)]) == Holders(tbl - {l})
  {
    var ch := Dropped(l, prev);
    assert (changes + [ch])[..|changes|] == changes;
  }

  lemma HoldersRefresh(tbl: Table, l: LockId, lease: Lease)
    requires l in tbl && lease.holder == tbl[l].holder
    ensures Holders(tbl[l := lease]) == Holders(tbl)
  {
  }

  lemma TableAtAppend(ttl: real, log: seq<Command>, cmd: Command)
    ensures TableAt(ttl, log + [cmd], |log| + 1) == Apply(TableAt(ttl, log, |log|), ttl, cmd)
  {
    assert (log + [cmd])[..|log|] == log[..|log|];
    EqualPrefixesEqualTables(ttl, log + [cmd], log, |log|);
  }

  /** Who holds the lock, as acquire reports it: an expired holder counts as nobody. */
  function Standing(tbl: Table, ttl: real, lock: LockId, now: real): Option<ClientId> {
    if lock in tbl && !Expired(tbl[lock], ttl, now) then Some(tbl[lock].holder) else None
  }

  /** Which is whoever stands in the way: nobody if any client would be granted the lock, and otherwise
      the one client that would. */
  lemma StandingExact(tbl: Table, ttl: real, l: LockId, now: real)
    ensures forall c :: Grants(tbl, ttl, l, c, now) <==> Standing(tbl, ttl, l, now) in {None, Some(c)}
    ensures Standing(tbl, ttl, l, now).Some? ==> l in tbl && Standing(tbl, ttl, l, now) == Some(tbl[l].holder)
  {
  }

  function Dropped(l: LockId, holder: ClientId): Change {
    Change(Some((l, Some(holder))), None)
  }

  /** The callbacks of one prolongate: one per expired lock, in the order the dict is walked. */
  function Expiries(tbl: Table, ttl: real, now: real, order: seq<LockId>): seq<Change>
    requires forall l | l in order :: l in tbl
  {
    if order == [] then []
    else
      var l := order[|order| - 1];
      Expiries(tbl, ttl, now, order[..|order| - 1]) + if Expired(tbl[l], ttl, now) then [Dropped(l, tbl[l].holder)] else []
  }

  lemma ExpiriesStep(tbl: Table, ttl: real, now: real, order: seq<LockId>, i: nat)
    requires i < |order| && forall l | l in order :: l in tbl
    ensures forall l | l in order[..i + 1] :: l in tbl
    ensures order[i] in tbl
    ensures Expiries(tbl, ttl, now, order[..i + 1])
            == Expiries(tbl, ttl, now, order[..i])
               + if Expired(tbl[order[i]], ttl, now) then [Dropped(order[i], tbl[order[i]].holder)] else []
  {
    assert order[i] in order;
    assert order[..i + 1][..i] == order[..i];
  }

  /** No expired lock is passed over, none is reported twice, and no other is reported. */
  lemma {:induction false} ExpiriesExact(tbl: Table, ttl: real, now: real, order: seq<LockId>)
    requires forall l | l in order :: l in tbl
    requires forall i, j | 0 <= i < j < |order| :: order[i] != order[j]
    ensures var cbs := Expiries(tbl, ttl, now, order);
            && (forall l | l in order :: Dropped(l, tbl[l].holder) in cbs <==> now - tbl[l].time > ttl)
            && (forall ch | ch in cbs :: ch.prev.Some? && ch.prev.value.0 in order
                                         && ch == Dropped(ch.prev.value.0, tbl[ch.prev.value.0].holder))
            && forall i, j | 0 <= i < j < |cbs| :: cbs[i] != cbs[j]
  {
    if order != [] {
      var rest, l := order[..|order| - 1], order[|order| - 1];
      assert forall x | x in rest :: x in order;
      ExpiriesExact(tbl, ttl, now, rest);
      assert forall x :: x in order <==> x in rest || x == l;
      assert l !in rest;
      var before := Expiries(tbl, ttl, now, rest);
      assert Dropped(l, tbl[l].holder).prev.value.0 == l;
      assert Dropped(l, tbl[l].holder) !in before;
    }
  }

  /** `order` lists each key of a dict once: the order in which Python walks it. */
  ghost predicate Lists<K, V>(order: seq<K>, m: map<K, V>) {
    && (forall i, j | 0 <= i < j < |order| :: order[i] != order[j])
    && (forall k | k in order :: k in m)
    && (forall k | k in m :: k in order)
  }

  /** The table half way through the prolongate loop, when the locks in `done` have been visited. */
  ghost function Walked(tbl: Table, ttl: real, client: ClientId, now: real, done: seq<LockId>): Table {
    map l | l in tbl && !(l in done && Expired(tbl[l], ttl, now)) ::
      if l in done then Refreshed(tbl[l], client, now) else tbl[l]
  }

  lemma WalkedStep(tbl: Table, ttl: real, client: ClientId, now: real, order: seq<LockId>, i: nat)
    requires i < |order| && Lists(order, tbl)
    ensures var before := Walked(tbl, ttl, client, now, order[..i]);
            && order[i] in before && before[order[i]] == tbl[order[i]]
            && Walked(tbl, ttl, client, now, order[..i + 1])
               == if Expired(tbl[order[i]], ttl, now) then before - {order[i]}
                  else before[order[i] := Refreshed(tbl[order[i]], client, now)]
  {
    assert order[i] in order && order[i] !in order[..i];
    assert forall l :: l in order[..i + 1] <==> l in order[..i] || l == order[i];
  }

  lemma WalkedNone(tbl: Table, ttl: real, client: ClientId, now: real, order: seq<LockId>)
    requires forall l | l in order :: l in tbl
    ensures Walked(tbl, ttl, client, now, order[..0]) == tbl && Expiries(tbl, ttl, now, order[..0]) == []
  {
  }

  lemma WalkedAll(tbl: Table, ttl: real, client: ClientId, now: real, order: seq<LockId>)
    requires Lists(order, tbl)
    ensures Walked(tbl, ttl, client, now, order[..|order|]) == ProlongateTable(tbl, ttl, client, now)
  {
    assert order[..|order|] == order;
  }

  // ---------------------------------------------------------------- the replica

  class ReplLockManagerImpl {
    const autoUnlockTime: real
    var locks: Table
    /** Every callback invoked so far. */
    var changes: seq<Change>
    /** Every command applied so far. */
    ghost var log: seq<Command>

    /** The table is the fold of the log, and replaying the callbacks gives back who holds what. */
    ghost predicate Valid()
      reads this
    {
      && locks == TableAt(autoUnlockTime, log, |log|)
      && Replay(changes) == Holders(locks)
    }

    constructor (autoUnlockTime: real)
      ensures Valid() && this.autoUnlockTime == autoUnlockTime
      ensures locks == map[] && changes == [] && log == []
    {
      this.autoUnlockTime := autoUnlockTime;
      locks := map[];
      changes := [];
      log := [];
    }

    method Acquire(lockID: LockId, clientID: ClientId, currentTime: real) returns (granted: bool)
      requires Valid()
      modifies this
      ensures Valid()
      ensures log == old(log) + [Command.Acquire(lockID, clientID, currentTime)]
      ensures granted == Grants(old(locks), autoUnlockTime, lockID, clientID, currentTime)
      ensures locks == AcquireTable(old(locks), autoUnlockTime, lockID, clientID, currentTime)
      ensures changes == old(changes) + if granted
          then [Change(Some((lockID, Standing(old(locks), autoUnlockTime, lockID, currentTime))), Some((lockID, clientID)))]
          else []
    {
      ghost var cmd := Command.Acquire(lockID, clientID, currentTime);
      TableAtAppend(autoUnlockTime, log, cmd);
      log := log + [cmd];
      var existing: Option<ClientId> := None;
      if lockID in locks && !(currentTime - locks[lockID].time > autoUnlockTime) {
        existing := Some(locks[lockID].holder);
      }
      if existing == None || existing == Some(clientID) {
        ReplaySet(changes, locks, Some((lockID, existing)), lockID, Lease(clientID, currentTime));
        locks := locks[lockID := Lease(clientID, currentTime)];
        changes := changes + [Change(Some((lockID, existing)), Some((lockID, clientID)))];
        return true;
      }
      return false;
    }

    /** `order` is the order in which the dict lists its keys when the call begins; the result does
        not depend on it. */
    method Prolongate(clientID: ClientId, currentTime: real, order: seq<LockId>)
      requires Valid() && Lists(order, locks)
      modifies this
      ensures Valid()
      ensures log == old(log) + [Command.Prolongate(clientID, currentTime)]
      ensures locks == ProlongateTable(old(locks), autoUnlockTime, clientID, currentTime)
      ensures changes == old(changes) + Expiries(old(locks), autoUnlockTime, currentTime, order)
    {
      hide Expiries, Replay, Holders, ProlongateTable, TableAt;
      ghost var tbl := locks;
      WalkedNone(tbl, autoUnlockTime, clientID, currentTime, order);
      for i := 0 to |order|
        invariant log == old(log)
        invariant locks == Walked(tbl, autoUnlockTime, clientID, currentTime, order[..i])
        invariant Replay(changes) == Holders(locks)
        invariant changes == old(changes) + Expiries(tbl, autoUnlockTime, currentTime, order[..i])
      {
        var lockID := order[i];
        ExpiriesStep(tbl, autoUnlockTime, currentTime, order, i);
        WalkedStep(tbl, autoUnlockTime, clientID, currentTime, order, i);
        var lease := locks[lockID];
        if currentTime - lease.time > autoUnlockTime {
          ReplayDrop(changes, locks, lockID, lease.holder);
          locks := locks - {lockID};
          changes := changes + [Dropped(lockID, lease.holder)];
        } else if lease.holder == clientID {
          HoldersRefresh(locks, lockID, Lease(clientID, currentTime));
          locks := locks[lockID := Lease(clientID, currentTime)];
        } else {
          assert locks[lockID := lease] == locks;
        }
      }
      WalkedAll(tbl, autoUnlockTime, clientID, currentTime, order);
      assert order[..|order|] == order;
      TableAtAppend(autoUnlockTime, log, Command.Prolongate(clientID, currentTime));
      log := log + [Command.Prolongate(clientID, currentTime)];
    }

    method Release(lockID: LockId, clientID: ClientId)
      requires Valid()
      modifies this
      ensures Valid()
      ensures log == old(log) + [Command.Release(lockID, clientID)]
      ensures locks == ReleaseTable(old(locks), lockID, clientID)
      ensures changes == old(changes) + if locks != old(locks) then [Dropped(lockID, clientID)] else []
    {
      TableAtAppend(autoUnlockTime, log, Command.Release(lockID, clientID));
      log := log + [Command.Release(lockID, clientID)];
      if lockID in locks && locks[lockID].holder == clientID {
        ReplayDrop(changes, locks, lockID, clientID);
        locks := locks - {lockID};
        changes := changes + [Dropped(lockID, clientID)];
      }
    }

    method IsAcquiredBy(lockID: LockId, clientID: ClientId, currentTime: real) returns (held: bool)
      ensures held <==> IsAcquired(locks, autoUnlockTime, lockID, clientID, currentTime)
    {
      if lockID in locks {
        var lease := locks[lockID];
        if lease.holder == clientID && currentTime - lease.time < autoUnlockTime {
          return true;
        }
      }
      return false;
    }
  }
}
