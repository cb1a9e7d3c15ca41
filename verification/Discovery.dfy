/** Peer discovery on the local network, and the consensus membership it drives. */
module Discovery {
  import opened Wrappers

  type Host(==, !new)

  type Table = map<Host, real>

  /** What the discovery loop does, one step at a time. */
  datatype Step =
    | Ping(host: Host, ts: real)
    | Prune(ts: real)
    | Startup

  datatype Callback = Added(host: Host) | Removed(host: Host)

  // ---------------------------------------------------------------- steps, on values

  function Pinged(tbl: Table, self: Host, host: Host, ts: real): Table {
    if host == self then tbl else tbl[host := ts]
  }

  function Pruned(tbl: Table, ttl: real, ts: real): Table {
    map h | h in tbl && !(ts > tbl[h] + ttl) :: tbl[h]
  }

  function TableAfter(self: Host, ttl: real, steps: seq<Step>, n: nat): Table
    requires n <= |steps|
  {
    if n == 0 then map[]
    else
      var tbl := TableAfter(self, ttl, steps, n - 1);
      match steps[n - 1]
      case Ping(h, ts) => Pinged(tbl, self, h, ts)
      case Prune(ts) => Pruned(tbl, ttl, ts)
      case Startup => tbl
  }

  /** The timestamp of the last ping of `h` among the first `n` steps. */
  function LastPing(steps: seq<Step>, n: nat, h: Host): Option<real>
    requires n <= |steps|
  {
    if n == 0 then None
    else if steps[n - 1].Ping? && steps[n - 1].host == h then Some(steps[n - 1].ts)
    else LastPing(steps, n - 1, h)
  }

  /** Some prune after the last ping of `h` found it too old. */
  predicate Lapsed(steps: seq<Step>, n: nat, h: Host, ttl: real)
    requires n <= |steps|
  {
    n > 0 && !(steps[n - 1].Ping? && steps[n - 1].host == h)
    && (Lapsed(steps, n - 1, h, ttl)
        || (steps[n - 1].Prune? && LastPing(steps, n - 1, h).Some? && steps[n - 1].ts > LastPing(steps, n - 1, h).value + ttl))
  }

  /** Who is in the table, for every run and any clock: everyone but the node itself who has pinged and
      has not lapsed since, under the time of the last ping. */
  lemma {:induction false} TableExplained(self: Host, ttl: real, steps: seq<Step>, n: nat, h: Host)
    requires n <= |steps|
    ensures h in TableAfter(self, ttl, steps, n) <==>
        h != self && LastPing(steps, n, h).Some? && !Lapsed(steps, n, h, ttl)
    ensures h in TableAfter(self, ttl, steps, n) ==>
        Some(TableAfter(self, ttl, steps, n)[h]) == LastPing(steps, n, h)
  {
    if n > 0 {
      TableExplained(self, ttl, steps, n - 1, h);
    }
  }

  ghost predicate PrunesInOrder(steps: seq<Step>) {
    forall i, j | 0 <= i < j < |steps| && steps[i].Prune? && steps[j].Prune? :: steps[i].ts <= steps[j].ts
  }

  lemma {:induction false} LapsedBy(steps: seq<Step>, n: nat, h: Host, ttl: real, ts: real)
    requires n <= |steps| && Lapsed(steps, n, h, ttl)
    requires forall i | 0 <= i < n && steps[i].Prune? :: steps[i].ts <= ts
    ensures LastPing(steps, n, h).Some? && ts > LastPing(steps, n, h).value + ttl
  {
    if Lapsed(steps, n - 1, h, ttl) {
      LapsedBy(steps, n - 1, h, ttl, ts);
    }
  }

  /** Right after a prune at `ts`, on a clock that does not run backwards between prunes, a host is present
      exactly when it has been heard from within the time to live. */
  lemma PruneExact(self: Host, ttl: real, steps: seq<Step>, n: nat, h: Host)
    requires 0 < n <= |steps| && steps[n - 1].Prune? && PrunesInOrder(steps)
    ensures h in TableAfter(self, ttl, steps, n) <==>
        h != self && LastPing(steps, n, h).Some? && LastPing(steps, n, h).value >= steps[n - 1].ts - ttl
  {
    TableExplained(self, ttl, steps, n, h);
    if Lapsed(steps, n, h, ttl) {
      LapsedBy(steps, n, h, ttl, steps[n - 1].ts);
    }
  }

  // ---------------------------------------------------------------- callbacks

  /** The callbacks about one host. */
  function About(cbs: seq<Callback>, h: Host): seq<Callback> {
    if cbs == [] then []
    else About(cbs[..|cbs| - 1], h) + if cbs[|cbs| - 1].host == h then [cbs[|cbs| - 1]] else []
  }

  /** Added, removed, added, removed, ... and `present` tells which came last. */
  predicate Alternates(cbs: seq<Callback>, present: bool) {
    if cbs == [] then !present
    else cbs[|cbs| - 1].Added? == present && Alternates(cbs[..|cbs| - 1], !present)
  }

  ghost predicate InStep(cbs: seq<Callback>, tbl: Table) {
    forall h :: Alternates(About(cbs, h), h in tbl)
  }

  lemma CallbackKeepsStep(cbs: seq<Callback>, tbl: Table, cb: Callback, next: Table)
    requires InStep(cbs, tbl)
    requires cb.Added? == (cb.host !in tbl)
    requires next.Keys == if cb.Added? then tbl.Keys + {cb.host} else tbl.Keys - {cb.host}
    ensures InStep(cbs + [cb], next)
  {
    assert (cbs + [cb])[..|cbs|] == cbs;
    forall h ensures Alternates(About(cbs + [cb], h), h in next) {
      if h == cb.host {
        var mine := About(cbs, h);
        assert About(cbs + [cb], h) == mine + [cb];
        assert (mine + [cb])[..|mine|] == mine;
      } else {
        assert About(cbs + [cb], h) == About(cbs, h);
      }
    }
  }

  /** The cluster as the consensus layer sees it: the peers it was started with, plus those added, minus
      those removed since. Callbacks before the queue exists are dropped. */
  function Members(members: set<Host>, cb: Callback): set<Host> {
    match cb
    case Added(h) => members + {h}
    case Removed(h) => members - {h}
  }

  lemma SameHosts(cbs: seq<Callback>, tbl: Table, next: Table)
    requires InStep(cbs, tbl) && tbl.Keys == next.Keys
    ensures InStep(cbs, next)
  {
    forall h ensures Alternates(About(cbs, h), h in next) {
      assert Alternates(About(cbs, h), h in tbl);
    }
  }

  ghost predicate Distinct(hosts: seq<Host>) {
    forall a, b | 0 <= a < b < |hosts| :: hosts[a] != hosts[b]
  }

  function Removals(gone: seq<Host>): seq<Callback> {
    seq(|gone|, i requires 0 <= i < |gone| => Removed(gone[i]))
  }

  function Except(tbl: Table, gone: seq<Host>): Table {
    map h | h in tbl && h !in gone :: tbl[h]
  }

  lemma ExceptStep(tbl: Table, removed: seq<Host>, i: nat)
    requires i < |removed| && Distinct(removed)
    requires removed[i] in tbl
    ensures removed[i] in Except(tbl, removed[..i])
    ensures Except(tbl, removed[..i + 1]) == Except(tbl, removed[..i]) - {removed[i]}
  {
    assert removed[..i + 1] == removed[..i] + [removed[i]];
  }

  lemma StartupAppended(steps: seq<Step>, step: Step)
    ensures Startup in steps + [step] <==> Startup in steps || step == Startup
  {
  }

  // ---------------------------------------------------------------- the thread's schedule

  /** One turn of the receive loop: the clock, and the address in the packet that arrived, if any did. */
  datatype Turn = Turn(ts: real, host: Option<Host>)

  /** One round of the outer loop: the clock at its start, the random part of the pause, and the turns of
      the receive loop. */
  datatype Round = Round(ts: real, jitter: real, turns: seq<Turn>)

  /** The pings handled in a round: turns are taken while the clock read last is short of `next`, and a
      host not yet in the table ends the round. */
  function TurnSteps(self: Host, tbl: Table, ts: real, next: real, turns: seq<Turn>): (r: seq<Step>)
    ensures forall i | 0 <= i < |r| :: r[i].Ping?
    decreases |turns|
  {
    if turns == [] || ts >= next then []
    else
      var t := turns[0];
      match t.host
      case None => TurnSteps(self, tbl, t.ts, next, turns[1..])
      case Some(h) =>
        [Ping(h, t.ts)]
        + TurnSteps(self, Pinged(tbl, self, h, t.ts), t.ts, if h != self && h !in tbl then 0.0 else next, turns[1..])
  }

  lemma TurnTaken(self: Host, tbl: Table, ts: real, next: real, turns: seq<Turn>, k: nat)
    requires k < |turns| && ts < next
    ensures TurnSteps(self, tbl, ts, next, turns[k..])
            == match turns[k].host
               case None => TurnSteps(self, tbl, turns[k].ts, next, turns[k + 1..])
               case Some(h) =>
                 [Ping(h, turns[k].ts)]
                 + TurnSteps(self, Pinged(tbl, self, h, turns[k].ts), turns[k].ts,
                             if h != self && h !in tbl then 0.0 else next, turns[k + 1..])
  {
    assert turns[k..][0] == turns[k] && turns[k..][1..] == turns[k + 1..];
  }

  lemma TurnsEnded(self: Host, tbl: Table, ts: real, next: real, turns: seq<Turn>)
    requires turns == [] || ts >= next
    ensures TurnSteps(self, tbl, ts, next, turns) == []
  {
  }

  /** When the broadcast after one at `ts` is due. */
  function NextDue(ts: real, period: real, jitter: real): real { ts + period * (1.0 + jitter) }

  /** A round, after the steps in `past`: the startup once it is due, one prune, then the pings. */
  function RoundSteps(self: Host, ttl: real, period: real, start: real, past: seq<Step>, tbl: Table, r: Round): seq<Step> {
    (if Startup !in past && r.ts > start + period / 2.0 then [Startup] else [])
    + [Prune(r.ts)]
    + TurnSteps(self, Pruned(tbl, ttl, r.ts), r.ts, NextDue(r.ts, period, r.jitter), r.turns)
  }

  function SpinSteps(self: Host, ttl: real, period: real, start: real, rounds: seq<Round>, n: nat): seq<Step>
    requires n <= |rounds|
  {
    if n == 0 then []
    else
      var past := SpinSteps(self, ttl, period, start, rounds, n - 1);
      past + RoundSteps(self, ttl, period, start, past, TableAfter(self, ttl, past, |past|), rounds[n - 1])
  }

  lemma SpinStarted(self: Host, ttl: real, period: real, start: real, rounds: seq<Round>)
    ensures SpinSteps(self, ttl, period, start, rounds, 0) == []
  {
  }

  lemma SpinUnfolded(self: Host, ttl: real, period: real, start: real, rounds: seq<Round>, n: nat)
    requires n < |rounds|
    ensures var past := SpinSteps(self, ttl, period, start, rounds, n);
            SpinSteps(self, ttl, period, start, rounds, n + 1)
            == past + RoundSteps(self, ttl, period, start, past, TableAfter(self, ttl, past, |past|), rounds[n])
  {
  }

  lemma {:induction false} SpinPrunesInOrder(
    self: Host, ttl: real, period: real, start: real, rounds: seq<Round>, n: nat)
    requires n <= |rounds| && forall i, j | 0 <= i < j < |rounds| :: rounds[i].ts <= rounds[j].ts
    ensures PrunesInOrder(SpinSteps(self, ttl, period, start, rounds, n))
    ensures forall i | 0 <= i < |SpinSteps(self, ttl, period, start, rounds, n)| && SpinSteps(self, ttl, period, start, rounds, n)[i].Prune? ::
        n > 0 && SpinSteps(self, ttl, period, start, rounds, n)[i].ts <= rounds[n - 1].ts
  {
    hide TurnSteps, TableAfter;
    if n > 0 {
      SpinPrunesInOrder(self, ttl, period, start, rounds, n - 1);
    }
  }

  // ---------------------------------------------------------------- what a round does

  /** The turn brings a host that is neither the node itself nor known already. */
  predicate News(self: Host, known: set<Host>, t: Turn) {
    t.host.Some? && t.host.value != self && t.host.value !in known
  }

  /** Turn `k` of a round begun at `begin` takes place: no clock reading so far has reached `due`, and no
      turn so far has brought a new host. */
  predicate Reached(self: Host, known: set<Host>, begin: real, due: real, turns: seq<Turn>, k: nat) {
    begin < due && k <= |turns| && forall j | 0 <= j < k :: turns[j].ts < due && !News(self, known, turns[j])
  }

  /** The pings that some turns bring. */
  function Pings(turns: seq<Turn>): seq<Step> {
    if turns == [] then []
    else (if turns[0].host.Some? then [Ping(turns[0].host.value, turns[0].ts)] else []) + Pings(turns[1..])
  }

  lemma {:induction false} PingsAre(turns: seq<Turn>)
    ensures forall s | s in Pings(turns) :: s.Ping? && Turn(s.ts, Some(s.host)) in turns
    ensures forall t | t in turns && t.host.Some? :: Ping(t.host.value, t.ts) in Pings(turns)
  {
    if turns != [] {
      PingsAre(turns[1..]);
      assert turns == [turns[0]] + turns[1..];
    }
  }

  lemma {:induction false} TurnsReached(self: Host, tbl: Table, begin: real, due: real, turns: seq<Turn>) returns (m: nat)
    requires forall j | 0 <= j < |turns| :: turns[j].ts >= 0.0
    ensures m <= |turns| && TurnSteps(self, tbl, begin, due, turns) == Pings(turns[..m])
    ensures forall k: nat | k < |turns| :: k < m <==> Reached(self, tbl.Keys, begin, due, turns, k)
    decreases |turns|
  {
    m := 0;
    if turns != [] && begin < due {
      var t, rest := turns[0], turns[1..];
      if News(self, tbl.Keys, t) {
        m := 1;
        assert turns[..1] == [t];
        TurnsEnded(self, Pinged(tbl, self, t.host.value, t.ts), t.ts, 0.0, rest);
      } else {
        var next := if t.host.Some? then Pinged(tbl, self, t.host.value, t.ts) else tbl;
        assert next.Keys == tbl.Keys;
        var n := TurnsReached(self, next, t.ts, due, rest);
        m := n + 1;
        assert turns[..m][1..] == rest[..n];
        forall k: nat | k < |turns| ensures k < m <==> Reached(self, tbl.Keys, begin, due, turns, k) {
          if k > 0 {
            ReachedShift(self, tbl.Keys, begin, due, turns, k);
          }
        }
      }
    }
  }

  lemma ReachedShift(self: Host, known: set<Host>, begin: real, due: real, turns: seq<Turn>, k: nat)
    requires 0 < k < |turns| && begin < due && !News(self, known, turns[0])
    ensures Reached(self, known, begin, due, turns, k) <==> Reached(self, known, turns[0].ts, due, turns[1..], k - 1)
  {
    if Reached(self, known, turns[0].ts, due, turns[1..], k - 1) {
      forall j | 0 <= j < k ensures turns[j].ts < due && !News(self, known, turns[j]) {
        if j > 0 {
          assert turns[j] == turns[1..][j - 1];
        }
      }
    }
  }

  ghost predicate StartedBy(period: real, start: real, rounds: seq<Round>, n: nat)
    requires n <= |rounds|
  {
    exists i :: 0 <= i < n && rounds[i].ts > start + period / 2.0
  }

  lemma {:induction false} StartupOnce(self: Host, ttl: real, period: real, start: real, rounds: seq<Round>, n: nat)
    requires n <= |rounds|
    ensures Startup in SpinSteps(self, ttl, period, start, rounds, n) <==> StartedBy(period, start, rounds, n)
  {
    hide TurnSteps, TableAfter, Pruned, NextDue;
    if n > 0 {
      StartupOnce(self, ttl, period, start, rounds, n - 1);
    }
  }

  /** The hosts heard from within the time to live. */
  function Fresh(tbl: Table, ttl: real, ts: real): set<Host> {
    set h | h in tbl && tbl[h] + ttl >= ts
  }

  /** The first `m` turns of the round, and no others, take place before the broadcast due at `due`. */
  ghost predicate EndsAfter(self: Host, known: set<Host>, due: real, r: Round, m: nat) {
    m <= |r.turns| && forall k: nat | k < |r.turns| :: k < m <==> Reached(self, known, r.ts, due, r.turns, k)
  }

  /** A round, exactly: the startup if it is the first to begin more than half a period after the start;
      one prune; and the pings of the turns before the next broadcast, which is due between one and two
      periods after the round began, or at once when a new host turns up. */
  lemma RoundExact(self: Host, ttl: real, period: real, start: real, rounds: seq<Round>, n: nat) returns (m: nat)
    requires n < |rounds| && forall j | 0 <= j < |rounds[n].turns| :: rounds[n].turns[j].ts >= 0.0
    ensures var past, r := SpinSteps(self, ttl, period, start, rounds, n), rounds[n];
            var known := Fresh(TableAfter(self, ttl, past, |past|), ttl, r.ts);
            && m <= |r.turns| && EndsAfter(self, known, r.ts + period * (1.0 + r.jitter), r, m)
            && SpinSteps(self, ttl, period, start, rounds, n + 1)
               == past
                  + (if r.ts > start + period / 2.0 && !StartedBy(period, start, rounds, n) then [Startup] else [])
                  + [Prune(r.ts)]
                  + Pings(r.turns[..m])
  {
    hide TurnSteps, TableAfter, SpinSteps, Reached;
    var past, r := SpinSteps(self, ttl, period, start, rounds, n), rounds[n];
    var tbl := TableAfter(self, ttl, past, |past|);
    StartupOnce(self, ttl, period, start, rounds, n);
    SpinUnfolded(self, ttl, period, start, rounds, n);
    m := TurnsReached(self, Pruned(tbl, ttl, r.ts), r.ts, NextDue(r.ts, period, r.jitter), r.turns);
    var known := Fresh(tbl, ttl, r.ts);
    assert Pruned(tbl, ttl, r.ts).Keys == known;
  }

  /** So a packet is heard: with a positive period, a ping is handled whenever it arrives before the next
      broadcast is due and before any new host, and its host is listed at the end of the round. */
  lemma PingHeard(self: Host, ttl: real, period: real, start: real, rounds: seq<Round>, n: nat, k: nat, h: Host)
    requires n < |rounds| && k < |rounds[n].turns| && rounds[n].turns[k].host == Some(h)
    requires period > 0.0 && rounds[n].jitter >= 0.0
    requires forall j | 0 <= j < |rounds[n].turns| :: rounds[n].turns[j].ts >= 0.0
    requires var past, r := SpinSteps(self, ttl, period, start, rounds, n), rounds[n];
             forall j | 0 <= j < k ::
               && r.turns[j].ts < r.ts + period * (1.0 + r.jitter)
               && (r.turns[j].host.Some? && r.turns[j].host.value != self ==>
                     var g, tbl := r.turns[j].host.value, TableAfter(self, ttl, past, |past|);
                     g in tbl && tbl[g] + ttl >= r.ts)
    ensures var past, all := SpinSteps(self, ttl, period, start, rounds, n), SpinSteps(self, ttl, period, start, rounds, n + 1);
            && past <= all && Ping(h, rounds[n].turns[k].ts) in all[|past|..]
            && (h != self ==> h in TableAfter(self, ttl, all, |all|))
  {
    hide TableAfter, SpinSteps, TurnSteps, NextDue, Pings, EndsAfter, Fresh, StartedBy;
    var past, all := SpinSteps(self, ttl, period, start, rounds, n), SpinSteps(self, ttl, period, start, rounds, n + 1);
    var r := rounds[n];
    var m := RoundExact(self, ttl, period, start, rounds, n);
    PingInTime(self, TableAfter(self, ttl, past, |past|), ttl, period, r, m, k);
    var heard := Pings(r.turns[..m]);
    var front := all[..|all| - |heard|];
    assert all == front + heard;
    var i :| 0 <= i < |heard| && heard[i] == Ping(h, r.turns[k].ts);
    assert all[|past|..][|front| - |past| + i] == heard[i];
    if h != self {
      PingStays(self, ttl, front, r.turns[..m], i);
    }
  }

  lemma PingInTime(self: Host, tbl: Table, ttl: real, period: real, r: Round, m: nat, k: nat)
    requires k < |r.turns| && r.turns[k].host.Some? && period > 0.0 && r.jitter >= 0.0
    requires EndsAfter(self, Fresh(tbl, ttl, r.ts), r.ts + period * (1.0 + r.jitter), r, m)
    requires forall j | 0 <= j < k ::
               && r.turns[j].ts < r.ts + period * (1.0 + r.jitter)
               && (r.turns[j].host.Some? && r.turns[j].host.value != self ==>
                     var g := r.turns[j].host.value; g in tbl && tbl[g] + ttl >= r.ts)
    ensures m <= |r.turns| && Ping(r.turns[k].host.value, r.turns[k].ts) in Pings(r.turns[..m])
  {
    hide Pings;
    assert period * (1.0 + r.jitter) >= period * 1.0;
    assert Reached(self, Fresh(tbl, ttl, r.ts), r.ts, r.ts + period * (1.0 + r.jitter), r.turns, k);
    PingsAre(r.turns[..m]);
    assert r.turns[..m][k] == r.turns[k];
  }

  lemma PingStays(self: Host, ttl: real, front: seq<Step>, turns: seq<Turn>, i: nat)
    requires i < |Pings(turns)| && Pings(turns)[i].Ping? && Pings(turns)[i].host != self
    ensures Pings(turns)[i].host in TableAfter(self, ttl, front + Pings(turns), |front| + |Pings(turns)|)
  {
    hide Pings;
    PingsAre(turns);
    var heard := Pings(turns);
    forall j | |front| + i < j < |front| + |heard| ensures !(front + heard)[j].Prune? {
      assert heard[j - |front|] in heard;
    }
    StaysListed(self, ttl, front + heard, |front| + i, |front| + |heard|, heard[i].host);
  }

  /** Between prunes nobody is dropped. */
  lemma {:induction false} StaysListed(self: Host, ttl: real, steps: seq<Step>, i: nat, n: nat, h: Host)
    requires i < n <= |steps| && steps[i].Ping? && steps[i].host == h && h != self
    requires forall j | i < j < n :: !steps[j].Prune?
    ensures h in TableAfter(self, ttl, steps, n)
    decreases n
  {
    if i + 1 < n {
      StaysListed(self, ttl, steps, i, n - 1, h);
    }
  }

  // ---------------------------------------------------------------- the queue's discovery

  class LANPrintQueue {
    const addr: Host
    const ttl: real
    const minBroadcastPd: real
    var hostTimestamps: Table
    var nextBroadcast: real
    /** The other members of the consensus cluster, once the queue is running. */
    var q: Option<set<Host>>
    /** Every hook called so far. */
    var callbacks: seq<Callback>
    ghost var steps: seq<Step>

    /** The table is what the steps so far explain; hooks alternate per host; the node itself is never
        listed; and a running queue's cluster is exactly the table. */
    ghost predicate Valid()
      reads this
    {
      && hostTimestamps == TableAfter(addr, ttl, steps, |steps|)
      && addr !in hostTimestamps
      && InStep(callbacks, hostTimestamps)
      && (q.Some? ==> q.value == hostTimestamps.Keys)
      && (q.Some? <==> Startup in steps)
    }

    constructor (addr: Host, ttl: real, minBroadcastPd: real)
      ensures Valid() && steps == [] && q == None && callbacks == []
      ensures this.addr == addr && this.ttl == ttl
    {
      this.addr, this.ttl, this.minBroadcastPd := addr, ttl, minBroadcastPd;
      hostTimestamps, nextBroadcast, q, callbacks, steps := map[], 0.0, None, [], [];
    }

    method HandlePing(host: Host, ts: real)
      requires Valid()
      modifies this
      ensures Valid() && steps == old(steps) + [Ping(host, ts)]
      ensures hostTimestamps == Pinged(old(hostTimestamps), addr, host, ts) && q.Some? == old(q).Some?
      ensures callbacks == old(callbacks) + if host != addr && host !in old(hostTimestamps) then [Added(host)] else []
      ensures nextBroadcast == if host != addr && host !in old(hostTimestamps) then 0.0 else old(nextBroadcast)
    {
      hide InStep, TableAfter;
      StepAppended(addr, ttl, steps, Ping(host, ts));
      StartupAppended(steps, Ping(host, ts));
      steps := steps + [Ping(host, ts)];
      if host == addr {
        return;
      }
      ghost var next := hostTimestamps[host := ts];
      if host !in hostTimestamps {
        CallbackKeepsStep(callbacks, hostTimestamps, Added(host), next);
        OnHostAdded(host);
        nextBroadcast := 0.0;
      } else {
        SameHosts(callbacks, hostTimestamps, next);
      }
      hostTimestamps := hostTimestamps[host := ts];
    }

    /** Whatever order the table is walked in. */
    method DoPrune(ts: real)
      requires Valid()
      modifies this`hostTimestamps, this`q, this`callbacks, this`steps
      ensures Valid() && steps == old(steps) + [Prune(ts)]
      ensures hostTimestamps == Pruned(old(hostTimestamps), ttl, ts) && q.Some? == old(q).Some?
      ensures exists gone :: Distinct(gone) && callbacks == old(callbacks) + Removals(gone)
                             && forall h :: h in gone <==> h in old(hostTimestamps) && ts > old(hostTimestamps)[h] + ttl
    {
      hide InStep, TableAfter;
      ghost var tbl := hostTimestamps;
      var removed: seq<Host> := [];
      var todo := hostTimestamps.Keys;
      while todo != {}
        invariant todo <= tbl.Keys
        invariant forall h :: h in removed <==> h in tbl.Keys - todo && ts > tbl[h] + ttl
        invariant Distinct(removed)
        decreases todo
      {
        var k :| k in todo;
        if ts > hostTimestamps[k] + ttl {
          removed := removed + [k];
        }
        todo := todo - {k};
      }
      for i := 0 to |removed|
        invariant steps == old(steps) && q.Some? == old(q).Some?
        invariant hostTimestamps == Except(tbl, removed[..i])
        invariant InStep(callbacks, hostTimestamps) && callbacks == old(callbacks) + Removals(removed[..i])
        invariant q.Some? ==> q.value == hostTimestamps.Keys
      {
        var k := removed[i];
        assert k in removed;
        ExceptStep(tbl, removed, i);
        CallbackKeepsStep(callbacks, hostTimestamps, Removed(k), hostTimestamps - {k});
        hostTimestamps := hostTimestamps - {k};
        OnHostRemoved(k);
        assert Removals(removed[..i + 1]) == Removals(removed[..i]) + [Removed(k)];
      }
      assert removed[..|removed|] == removed;
      assert hostTimestamps == Pruned(tbl, ttl, ts);
      StepAppended(addr, ttl, steps, Prune(ts));
      StartupAppended(steps, Prune(ts));
      steps := steps + [Prune(ts)];
    }

    method OnHostAdded(host: Host)
      modifies this`q, this`callbacks
      ensures callbacks == old(callbacks) + [Added(host)]
      ensures q == if old(q).Some? then Some(Members(old(q).value, Added(host))) else None
    {
      callbacks := callbacks + [Added(host)];
      if q.Some? {
        q := Some(q.value + {host});
      }
    }

    method OnHostRemoved(host: Host)
      modifies this`q, this`callbacks
      ensures callbacks == old(callbacks) + [Removed(host)]
      ensures q == if old(q).Some? then Some(Members(old(q).value, Removed(host))) else None
    {
      callbacks := callbacks + [Removed(host)];
      if q.Some? {
        q := Some(q.value - {host});
      }
    }

    /** The queue is created and connected to every host known by now. */
    method OnStartupComplete()
      requires Valid()
      modifies this`q, this`steps
      ensures Valid() && q == Some(hostTimestamps.Keys) && steps == old(steps) + [Startup]
    {
      StepAppended(addr, ttl, steps, Startup);
      StartupAppended(steps, Startup);
      steps := steps + [Startup];
      q := Some(hostTimestamps.Keys);
    }

    /** The receive loop of one round, from clock reading `begin` on. */
    method Receive(begin: real, turns: seq<Turn>)
      requires Valid()
      modifies this
      ensures Valid()
      ensures steps == old(steps) + TurnSteps(addr, old(hostTimestamps), begin, old(nextBroadcast), turns)
      ensures q.Some? == old(q).Some?
    {
      hide Valid, TurnSteps, Pinged;
      ghost var all := TurnSteps(addr, hostTimestamps, begin, nextBroadcast, turns);
      ghost var done: seq<Step> := [];
      var ts := begin;
      var k := 0;
      while ts < nextBroadcast && k < |turns|
        invariant 0 <= k <= |turns| && Valid() && q.Some? == old(q).Some?
        invariant steps == old(steps) + done
        invariant all == done + TurnSteps(addr, hostTimestamps, ts, nextBroadcast, turns[k..])
        decreases |turns| - k
      {
        var t := turns[k];
        TurnTaken(addr, hostTimestamps, ts, nextBroadcast, turns, k);
        ts := t.ts;
        if t.host.Some? {
          HandlePing(t.host.value, ts);
          done := done + [Ping(t.host.value, ts)];
        }
        k := k + 1;
      }
      TurnsEnded(addr, hostTimestamps, ts, nextBroadcast, turns[k..]);
    }

    /** The discovery thread, round by round. The queue starts in the first round that begins more than
        half a broadcast period after `start`. */
    method Spin(start: real, rounds: seq<Round>)
      requires Valid() && steps == [] && q == None
      modifies this
      ensures Valid()
      ensures steps == SpinSteps(addr, ttl, minBroadcastPd, start, rounds, |rounds|)
      ensures q.Some? <==> exists i :: 0 <= i < |rounds| && rounds[i].ts > start + minBroadcastPd / 2.0
    {
      hide InStep, TableAfter, SpinSteps, Pruned, NextDue;
      SpinStarted(addr, ttl, minBroadcastPd, start, rounds);
      var startup: Option<real> := Some(start);
      for n := 0 to |rounds|
        invariant Valid() && (startup == if q.Some? then None else Some(start))
        invariant steps == SpinSteps(addr, ttl, minBroadcastPd, start, rounds, n)
        invariant q.Some? <==> exists i :: 0 <= i < n && rounds[i].ts > start + minBroadcastPd / 2.0
      {
        ghost var past, tbl := steps, hostTimestamps;
        assert tbl == TableAfter(addr, ttl, past, |past|);
        var ts := rounds[n].ts;
        if startup.Some? && ts > startup.value + minBroadcastPd / 2.0 {
          OnStartupComplete();
          startup := None;
        }
        nextBroadcast := NextDue(ts, minBroadcastPd, rounds[n].jitter);
        ghost var due := if Startup !in past && ts > start + minBroadcastPd / 2.0 then [Startup] else [];
        assert steps == past + due;
        ghost var pings := TurnSteps(addr, Pruned(tbl, ttl, ts), ts, nextBroadcast, rounds[n].turns);
        DoPrune(ts);
        Receive(ts, rounds[n].turns);
        assert RoundSteps(addr, ttl, minBroadcastPd, start, past, tbl, rounds[n]) == due + [Prune(ts)] + pings;
        assert steps == past + RoundSteps(addr, ttl, minBroadcastPd, start, past, tbl, rounds[n]);
        SpinUnfolded(addr, ttl, minBroadcastPd, start, rounds, n);
      }
    }
  }

  lemma {:induction false} SamePast(self: Host, ttl: real, steps: seq<Step>, step: Step, n: nat)
    requires n <= |steps|
    ensures TableAfter(self, ttl, steps + [step], n) == TableAfter(self, ttl, steps, n)
  {
    if n > 0 {
      SamePast(self, ttl, steps, step, n - 1);
    }
  }

  lemma StepAppended(self: Host, ttl: real, steps: seq<Step>, step: Step)
    ensures var tbl := TableAfter(self, ttl, steps, |steps|);
            TableAfter(self, ttl, steps + [step], |steps| + 1)
            == match step
               case Ping(h, ts) => Pinged(tbl, self, h, ts)
               case Prune(ts) => Pruned(tbl, ttl, ts)
               case Startup => tbl
  {
    SamePast(self, ttl, steps, step, |steps|);
  }
}
