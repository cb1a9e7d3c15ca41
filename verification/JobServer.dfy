/** The WAN server: job handlers that update shared job objects in place, the message gate, and the
    branches of the main loop. The consensus group is an atomic register (`state`) plus a leader name;
    the clock is a parameter. */
module JobServer {
  import opened Wrappers
  import opened JobState

  class Job {
    var id: JobId
    var content: Content
    var lock: Option<Lock>

    constructor (id: JobId, content: Content, lock: Option<Lock>)
      ensures Value() == JobValue(id, content, lock)
    {
      this.id, this.content, this.lock := id, content, lock;
    }

    function Value(): JobValue
      reads this
    {
      JobValue(id, content, lock)
    }
  }

  class State {
    var jobs: map<JobId, Job>

    constructor (jobs: map<JobId, Job>)
      ensures this.jobs == jobs
    {
      this.jobs := jobs;
    }

    /** Every job object is filed under its own id, and under no other. */
    ghost predicate Valid()
      reads this, jobs.Values
    {
      && (forall k | k in jobs :: jobs[k].id == k)
      && (forall k1, k2 | k1 in jobs && k2 in jobs && k1 != k2 :: jobs[k1] != jobs[k2])
    }

    function Abs(): JobMap
      reads this, jobs.Values
    {
      map k | k in jobs :: jobs[k].Value()
    }
  }

  type AddrInfo(==, !new)

  const ASSIGNMENT_TOPIC := "ASSIGN"
  const DEFAULT_TOPIC := "0"

  datatype Message =
    | SetJobRequest(job: Job)
    | DeleteJobRequest(id: JobId)
    | AcquireJobRequest(id: JobId)
    | ReleaseJobRequest(id: JobId)
    | StateUpdate(state: State)
    | LeaderNotice(leader: PeerId)
    | PeersSummary(estimate: int)
    | AssignmentRequest
    | AssignmentResponse(peer: PeerId, topic: string, leaderId: PeerId, electable: bool)
    | RaftAddrsRequest(addr: AddrInfo)
    | RaftAddrsResponse(addr: AddrInfo)
    | PollPeersRequest
    | PollPeersResponse
    | Unknown

  predicate IsJobRequest(msg: Message) {
    msg.SetJobRequest? || msg.DeleteJobRequest? || msg.AcquireJobRequest? || msg.ReleaseJobRequest?
  }

  /** The request a message carries, by value. */
  ghost function RequestOf(msg: Message): Request
    requires IsJobRequest(msg)
    reads Carried(msg)
  {
    match msg
    case SetJobRequest(job) => SetJob(job.Value())
    case DeleteJobRequest(id) => DeleteJob(id)
    case AcquireJobRequest(id) => AcquireJob(id)
    case ReleaseJobRequest(id) => ReleaseJob(id)
  }

  /** The job object that comes with a message. */
  ghost function Carried(msg: Message): set<Job> {
    if msg.SetJobRequest? then {msg.job} else {}
  }

  /** What goes out to a topic. States are recorded by value. */
  datatype Packet =
    | Jobs(jobs: JobMap)
    | LeaderIs(leader: PeerId)
    | Forwarded(msg: Message)
    | Assigned(peer: PeerId, topic: string, leader: PeerId)
    | RaftAddrs(addr: AddrInfo)
    | RaftAddrsWanted(addr: AddrInfo)

  datatype CommandReply = OkReply | ErrorReply

  // ---------------------------------------------------------------- turns of a leader's main loop

  /** What one turn of the main loop receives. Job requests come by value. */
  datatype Turn =
    | Command(now: int, req: Request)
    | FromTopic(onTopic: string, ev: Event)
    | Other(onTopic: string, from: PeerId, msg: Message)
    | StateChanged
    | LeaderChanged

  /** The turn is no state of the server's own coming back, and no trusted notice or assignment that puts
      someone else in charge. */
  predicate KeepsOffice(id: PeerId, trustedPeers: set<PeerId>, turn: Turn) {
    turn.Other? ==>
      && !IsJobRequest(turn.msg)
      && (turn.msg.StateUpdate? ==> turn.from != id)
      && (turn.from in trustedPeers + {id} ==>
            && (turn.msg.LeaderNotice? ==> turn.msg.leader == id)
            && (turn.msg.AssignmentResponse? && turn.msg.peer == id ==> turn.msg.leaderId == id))
  }

  function Requested(id: PeerId, turn: Turn): Option<Event> {
    match turn
    case Command(now, req) => Some(Event(id, now, req))
    case FromTopic(_, ev) => Some(ev)
    case _ => None
  }

  /** The job requests among the first `n` turns. */
  function Requests(id: PeerId, turns: seq<Turn>, n: nat): seq<Event>
    requires n <= |turns|
  {
    if n == 0 then []
    else
      var r := Requested(id, turns[n - 1]);
      Requests(id, turns, n - 1) + if r.Some? then [r.value] else []
  }

  /** The jobs once the first `n` turns are handled: only the requests count. */
  function Register(id: PeerId, init: JobMap, turns: seq<Turn>, n: nat): JobMap
    requires n <= |turns|
  {
    var evs := Requests(id, turns, n);
    JobsAfter(init, evs, |evs|)
  }

  predicate Granted(id: PeerId, jobs: JobMap, turn: Turn) {
    var r := Requested(id, turn);
    r.Some? && Serve(jobs, r.value.from, r.value.now, r.value.req).1 == Done
  }

  function TurnAfter(id: PeerId, jobs: JobMap, turn: Turn): JobMap {
    var r := Requested(id, turn);
    if r.Some? then Serve(jobs, r.value.from, r.value.now, r.value.req).0 else jobs
  }

  /** The states a turn sends to the topic, and to the wrapper. */
  function TurnPublishes(id: PeerId, jobs: JobMap, turn: Turn): seq<JobMap> {
    if Granted(id, jobs, turn) || turn.LeaderChanged? then [TurnAfter(id, jobs, turn)] else []
  }

  function TurnPushes(id: PeerId, jobs: JobMap, turn: Turn): seq<JobMap> {
    if (turn.Command? && Granted(id, jobs, turn)) || turn.StateChanged? || turn.LeaderChanged?
    then [TurnAfter(id, jobs, turn)]
    else []
  }

  function Published(id: PeerId, init: JobMap, turns: seq<Turn>, n: nat): seq<JobMap>
    requires n <= |turns|
  {
    if n == 0 then []
    else Published(id, init, turns, n - 1) + TurnPublishes(id, Register(id, init, turns, n - 1), turns[n - 1])
  }

  function Pushed(id: PeerId, init: JobMap, turns: seq<Turn>, n: nat): seq<JobMap>
    requires n <= |turns|
  {
    if n == 0 then []
    else Pushed(id, init, turns, n - 1) + TurnPushes(id, Register(id, init, turns, n - 1), turns[n - 1])
  }

  lemma RegisterStart(id: PeerId, init: JobMap, turns: seq<Turn>)
    ensures Register(id, init, turns, 0) == init
  {
  }

  lemma RegisterStep(id: PeerId, init: JobMap, turns: seq<Turn>, n: nat)
    requires n < |turns|
    ensures Register(id, init, turns, n + 1) == TurnAfter(id, Register(id, init, turns, n), turns[n])
  {
    var evs, r := Requests(id, turns, n), Requested(id, turns[n]);
    if r.Some? {
      JobsAfterPrefix(init, evs, r.value, |evs|);
    } else {
      assert Requests(id, turns, n + 1) == evs;
    }
  }

  /** Requests already handled mean the same when more are handled. */
  lemma RegisterKept(id: PeerId, init: JobMap, turns: seq<Turn>, n: nat, k: nat)
    requires n < |turns| && k <= |Requests(id, turns, n)|
    ensures k <= |Requests(id, turns, n + 1)|
    ensures JobsAfter(init, Requests(id, turns, n + 1), k) == JobsAfter(init, Requests(id, turns, n), k)
  {
    var evs, r := Requests(id, turns, n), Requested(id, turns[n]);
    if r.Some? {
      JobsAfterPrefix(init, evs, r.value, k);
    } else {
      assert Requests(id, turns, n + 1) == evs;
    }
  }

  /** `at[i]` requests had been handled when state `i` was published. */
  ghost predicate Stamps(init: JobMap, evs: seq<Event>, states: seq<JobMap>, at: seq<nat>) {
    && |at| == |states|
    && (forall i | 0 <= i < |at| :: at[i] <= |evs| && states[i] == JobsAfter(init, evs, at[i]))
    && (forall i, j | 0 <= i < j < |at| :: at[i] <= at[j])
  }

  /** Every granted request's own state is among those stamped. */
  ghost predicate GrantsAmong(init: JobMap, evs: seq<Event>, at: seq<nat>) {
    forall k | 0 <= k < |evs| && VerdictAt(init, evs, k) == Done :: k + 1 in at
  }

  /** Whatever the turns, what goes to the topic, and what goes to the wrapper, are states of the run of
      job requests, in the order of that run; and every granted request is among the published ones. */
  lemma {:induction false} SentInOrder(id: PeerId, init: JobMap, turns: seq<Turn>, n: nat)
      returns (published: seq<nat>, pushed: seq<nat>)
    requires n <= |turns|
    ensures var evs := Requests(id, turns, n);
            && Stamps(init, evs, Published(id, init, turns, n), published)
            && Stamps(init, evs, Pushed(id, init, turns, n), pushed)
            && GrantsAmong(init, evs, published)
  {
    hide Register, JobsAfter, Serve, Requests, GrantsAmong, Stamps, TurnAfter, TurnPublishes, TurnPushes, Granted;
    published, pushed := [], [];
    if n == 0 {
      NothingSent(id, init, turns);
    } else {
      var published0, pushed0 := SentInOrder(id, init, turns, n - 1);
      var jobs, turn := Register(id, init, turns, n - 1), turns[n - 1];
      var now := [|Requests(id, turns, n)|];
      RegisterStep(id, init, turns, n - 1);
      TurnSends(id, jobs, turn);
      published := published0 + if TurnPublishes(id, jobs, turn) == [] then [] else now;
      pushed := pushed0 + if TurnPushes(id, jobs, turn) == [] then [] else now;
      StampsExtend(id, init, turns, n, Published(id, init, turns, n - 1), published0, TurnPublishes(id, jobs, turn), published);
      StampsExtend(id, init, turns, n, Pushed(id, init, turns, n - 1), pushed0, TurnPushes(id, jobs, turn), pushed);
      GrantsExtend(id, init, turns, n, published0, published);
    }
  }

  /** Nor is any withheld: a granted request or a leadership change sends the present state to the topic;
      a granted command, a leadership change or a change of the register sends it to the wrapper. */
  lemma PresentStateSent(id: PeerId, init: JobMap, turns: seq<Turn>, n: nat)
    requires n < |turns|
    ensures var turn, jobs := turns[n], Register(id, init, turns, n + 1);
            var r := Requested(id, turn);
            var granted := r.Some? && VerdictAt(init, Requests(id, turns, n) + [r.value], |Requests(id, turns, n)|) == Done;
            && (granted || turn.LeaderChanged? ==> Published(id, init, turns, n + 1) == Published(id, init, turns, n) + [jobs])
            && ((granted && turn.Command?) || turn.LeaderChanged? || turn.StateChanged? ==>
                  Pushed(id, init, turns, n + 1) == Pushed(id, init, turns, n) + [jobs])
  {
    var evs, r := Requests(id, turns, n), Requested(id, turns[n]);
    RegisterStep(id, init, turns, n);
    if r.Some? {
      JobsAfterPrefix(init, evs, r.value, |evs|);
    }
  }

  lemma NothingSent(id: PeerId, init: JobMap, turns: seq<Turn>)
    ensures Stamps(init, Requests(id, turns, 0), [], []) && GrantsAmong(init, Requests(id, turns, 0), [])
  {
  }

  lemma TurnSends(id: PeerId, jobs: JobMap, turn: Turn)
    ensures TurnPublishes(id, jobs, turn) in {[], [TurnAfter(id, jobs, turn)]}
    ensures TurnPushes(id, jobs, turn) in {[], [TurnAfter(id, jobs, turn)]}
    ensures Granted(id, jobs, turn) ==> TurnPublishes(id, jobs, turn) != []
  {
  }

  lemma GrantsExtend(id: PeerId, init: JobMap, turns: seq<Turn>, n: nat, at0: seq<nat>, at: seq<nat>)
    requires 0 < n <= |turns|
    requires GrantsAmong(init, Requests(id, turns, n - 1), at0)
    requires at0 <= at
    requires Granted(id, Register(id, init, turns, n - 1), turns[n - 1]) ==> at == at0 + [|Requests(id, turns, n)|]
    ensures GrantsAmong(init, Requests(id, turns, n), at)
  {
    var evs0, evs := Requests(id, turns, n - 1), Requests(id, turns, n);
    forall k | 0 <= k < |evs| && VerdictAt(init, evs, k) == Done
      ensures k + 1 in at
    {
      RegisterKept(id, init, turns, n - 1, k);
      if k < |evs0| {
        assert evs[k] == evs0[k];
        assert VerdictAt(init, evs0, k) == Done;
      } else {
        assert at[|at| - 1] == k + 1;
      }
    }
  }

  lemma StampsExtend(id: PeerId, init: JobMap, turns: seq<Turn>, n: nat,
                     states0: seq<JobMap>, at0: seq<nat>, more: seq<JobMap>, at: seq<nat>)
    requires 0 < n <= |turns|
    requires Stamps(init, Requests(id, turns, n - 1), states0, at0)
    requires more == [] || more == [Register(id, init, turns, n)]
    requires at == at0 + if more == [] then [] else [|Requests(id, turns, n)|]
    ensures Stamps(init, Requests(id, turns, n), states0 + more, at)
  {
    forall i | 0 <= i < |at0|
      ensures at0[i] <= |Requests(id, turns, n)| && states0[i] == JobsAfter(init, Requests(id, turns, n), at0[i])
    {
      RegisterKept(id, init, turns, n - 1, at0[i]);
    }
  }

  /** The states among the packets, and among the pushes. */
  function JobsIn(packets: seq<Packet>): seq<JobMap> {
    if packets == [] then []
    else
      var last := packets[|packets| - 1];
      JobsIn(packets[..|packets| - 1]) + if last.Jobs? then [last.jobs] else []
  }

  function StatesIn(pushes: seq<Push>): seq<JobMap> {
    if pushes == [] then []
    else
      var last := pushes[|pushes| - 1];
      StatesIn(pushes[..|pushes| - 1]) + if last.StatePush? then [last.jobs] else []
  }

  lemma JobsInMore(packets: seq<Packet>, p: Packet)
    ensures JobsIn(packets + [p]) == JobsIn(packets) + if p.Jobs? then [p.jobs] else []
  {
    assert (packets + [p])[..|packets|] == packets;
  }

  lemma StatesInMore(pushes: seq<Push>, p: Push)
    ensures StatesIn(pushes + [p]) == StatesIn(pushes) + if p.StatePush? then [p.jobs] else []
  {
    assert (pushes + [p])[..|pushes|] == pushes;
  }

  class Server {
    const id: PeerId
    const trustedPeers: set<PeerId>
    const addr: AddrInfo
    var electable: bool
    var topic: string
    var leader: PeerId
    var state: State
    /** What was sent to a topic, pushed to the wrapper, and answered to the wrapper's commands; and the
        addresses handed to the consensus layer to connect to. */
    var published: seq<Packet>
    var pushed: seq<Push>
    var answered: seq<CommandReply>
    var connected: seq<AddrInfo>

    ghost predicate Valid()
      reads this, state, state.jobs.Values
    {
      state.Valid()
    }

    function Abs(): JobMap
      reads this, state, state.jobs.Values
    {
      state.Abs()
    }

    /** A trusted server assigns itself to the default topic as electable; any other starts without. */
    constructor (id: PeerId, trustedPeers: set<PeerId>, addr: AddrInfo)
      ensures Valid() && Abs() == map[] && fresh(state)
      ensures this.id == id && this.trustedPeers == trustedPeers && this.addr == addr
      ensures leader == "" && electable == (id in trustedPeers) && topic == if id in trustedPeers then DEFAULT_TOPIC else ""
      ensures published == [] && pushed == [] && answered == [] && connected == []
    {
      this.id, this.trustedPeers, this.addr := id, trustedPeers, addr;
      leader, topic, electable := "", "", false;
      state := new State(map[]);
      published, pushed, answered, connected := [], [], [], [];
      new;
      if id in trustedPeers {
        var reply := OnAssignmentResponse("", DEFAULT_TOPIC, true);
      }
    }

    predicate IsTrusted(peer: PeerId)
      reads this
    {
      peer in trustedPeers || leader == peer
    }

    predicate CanHandleMessage(from: PeerId, msg: Message)
      reads this
    {
      match msg
      case SetJobRequest(_) => leader == id
      case DeleteJobRequest(_) => leader == id
      case AcquireJobRequest(_) => leader == id
      case ReleaseJobRequest(_) => leader == id
      case StateUpdate(_) => leader == from
      case LeaderNotice(_) => IsTrusted(from)
      case PeersSummary(_) => leader == from
      case AssignmentRequest => leader == id
      case AssignmentResponse(peer, _, _, _) => IsTrusted(from) && peer == id
      case RaftAddrsRequest(_) => IsTrusted(from)
      case RaftAddrsResponse(_) => electable && IsTrusted(from)
      case _ => false
    }

    // -------------------------------------------------------------- job handlers

    method CheckMutable(j: Job, peer: PeerId, now: int) returns (ok: bool)
      ensures ok == Mutable(j.lock, peer, now)
    {
      var expiry := ToUint64(now - LOCK_TIMEOUT_SECONDS);
      var p := if j.lock.Some? then j.lock.value.peer else "";
      return p == "" || p == peer || j.lock.value.created < expiry;
    }

    method GetMutableJob(jid: JobId, peer: PeerId, now: int) returns (v: Verdict, j: Option<Job>)
      ensures v == if jid !in state.jobs then NotFound
                   else if Mutable(state.jobs[jid].lock, peer, now) then Done else Denied
      ensures j == if v == Done then Some(state.jobs[jid]) else None
    {
      if jid !in state.jobs {
        return NotFound, None;
      }
      var ok := CheckMutable(state.jobs[jid], peer, now);
      if !ok {
        return Denied, None;
      }
      return Done, Some(state.jobs[jid]);
    }

    /** The object that came with the request becomes the stored one; its lock is replaced by the stored
        job's lock first. */
    method OnSetJobRequest(from: PeerId, job: Job, now: int) returns (v: Verdict)
      requires Valid() && job !in state.jobs.Values
      modifies state, job`lock
      ensures Valid()
      ensures (Abs(), v) == Serve(old(Abs()), from, now, SetJob(old(job.Value())))
      ensures v == Done ==> state.jobs == old(state.jobs)[job.id := job]
      ensures v != Done ==> unchanged(state) && unchanged(job)
    {
      var s := state;
      if job.id in s.jobs {
        var j := s.jobs[job.id];
        var ok := CheckMutable(j, from, now);
        if !ok {
          return Denied;
        }
        job.lock := j.lock;
      }
      s.jobs := s.jobs[job.id := job];
      assert Abs() == Serve(old(Abs()), from, now, SetJob(old(job.Value()))).0;
      return Done;
    }

    method OnDeleteJobRequest(from: PeerId, jid: JobId, now: int) returns (v: Verdict)
      requires Valid()
      modifies state
      ensures Valid()
      ensures (Abs(), v) == Serve(old(Abs()), from, now, DeleteJob(jid))
      ensures v == Done ==> state.jobs == old(state.jobs) - {jid}
      ensures v != Done ==> unchanged(state)
    {
      var j;
      v, j := GetMutableJob(jid, from, now);
      if v == Done {
        state.jobs := state.jobs - {jid};
      }
      assert Abs() == Serve(old(Abs()), from, now, DeleteJob(jid)).0;
    }

    method OnAcquireJobRequest(from: PeerId, jid: JobId, now: int) returns (v: Verdict)
      requires Valid()
      modifies if jid in state.jobs then {state.jobs[jid]} else {}
      ensures Valid()
      ensures (Abs(), v) == Serve(old(Abs()), from, now, AcquireJob(jid))
      ensures v != Done && jid in state.jobs ==> unchanged(state.jobs[jid])
    {
      var j;
      v, j := GetMutableJob(jid, from, now);
      if v == Done {
        j.value.lock := Some(Lock(from, ToUint64(now)));
      }
      assert Abs() == Serve(old(Abs()), from, now, AcquireJob(jid)).0;
    }

    method OnReleaseJobRequest(from: PeerId, jid: JobId, now: int) returns (v: Verdict)
      requires Valid()
      modifies if jid in state.jobs then {state.jobs[jid]} else {}
      ensures Valid()
      ensures (Abs(), v) == Serve(old(Abs()), from, now, ReleaseJob(jid))
      ensures v != Done && jid in state.jobs ==> unchanged(state.jobs[jid])
    {
      var j;
      v, j := GetMutableJob(jid, from, now);
      if v == Done {
        j.value.lock := None;
      }
      assert Abs() == Serve(old(Abs()), from, now, ReleaseJob(jid)).0;
    }

    // -------------------------------------------------------------- the other handlers

    method OnAssignmentResponse(leaderId: PeerId, newTopic: string, asElectable: bool) returns (reply: Option<Packet>)
      modifies this`leader, this`topic, this`electable
      ensures leader == leaderId && topic == newTopic && electable == asElectable
      ensures reply == if asElectable then Some(RaftAddrsWanted(addr)) else None
    {
      topic := newTopic;
      electable := asElectable;
      leader := leaderId;
      return if electable then Some(RaftAddrsWanted(addr)) else None;
    }

    method OnRaftAddrsRequest(onTopic: string, from: PeerId, peerAddr: AddrInfo) returns (reply: Option<Packet>)
      modifies this`connected
      ensures var accepted := from in trustedPeers && onTopic == topic;
              && reply == (if accepted then Some(RaftAddrs(addr)) else None)
              && connected == old(connected) + if accepted then [peerAddr] else []
    {
      if from in trustedPeers && onTopic == topic {
        connected := connected + [peerAddr];
        return Some(RaftAddrs(addr));
      }
      return None;
    }

    // -------------------------------------------------------------- the dispatcher

    /** What a message needs: a job object of its own, or, to be adopted, a sound state of its own. */
    ghost predicate WellFormed(from: PeerId, msg: Message)
      reads this, state, if msg.StateUpdate? then {msg.state} else {}
      reads if msg.StateUpdate? then msg.state.jobs.Values else {}
    {
      && (msg.SetJobRequest? ==> msg.job !in state.jobs.Values)
      && (msg.StateUpdate? && leader == from ==> msg.state.Valid())
    }

    /** The answer to a message that is not a job request. */
    function SideReply(onTopic: string, from: PeerId, msg: Message): Option<Packet>
      reads this
    {
      if !CanHandleMessage(from, msg) then None
      else match msg
        case AssignmentRequest => Some(Assigned(from, topic, leader))
        case AssignmentResponse(_, _, _, asElectable) => if asElectable then Some(RaftAddrsWanted(addr)) else None
        case RaftAddrsRequest(_) => if from in trustedPeers && onTopic == topic then Some(RaftAddrs(addr)) else None
        case _ => None
    }

    /** Who leads after a message: a notice or an assignment says so, if it passes the gate. */
    function NextLeader(from: PeerId, msg: Message): PeerId
      reads this
    {
      if !CanHandleMessage(from, msg) then leader
      else match msg
        case LeaderNotice(l) => l
        case AssignmentResponse(_, _, l, _) => l
        case _ => leader
    }

    /** A job request changes the jobs only at the leader, and exactly as the value-level step says; a
        state is adopted only from the leader; nothing else touches the jobs. */
    method Handle(onTopic: string, from: PeerId, msg: Message, now: int) returns (reply: Option<Packet>, failed: bool)
      requires Valid() && WellFormed(from, msg)
      modifies this`state, this`leader, this`topic, this`electable, this`connected, this`pushed
      modifies state, state.jobs.Values, Carried(msg)
      ensures Valid()
      ensures IsJobRequest(msg) && old(leader) == id ==>
          var (jobs, v) := Serve(old(Abs()), from, now, old(RequestOf(msg)));
          Abs() == jobs && failed == (v != Done) && reply == if v == Done then Some(Jobs(jobs)) else None
      ensures !(IsJobRequest(msg) && old(leader) == id) ==>
          && !failed && reply == old(SideReply(onTopic, from, msg))
          && Abs() == if msg.StateUpdate? then Adopt(old(Abs()), old(leader), from, old(msg.state.Abs())) else old(Abs())
      ensures state == if msg.StateUpdate? && old(leader) == from then msg.state else old(state)
      ensures IsJobRequest(msg) ==> state.jobs.Values <= old(state.jobs.Values) + Carried(msg)
      ensures !IsJobRequest(msg) && state == old(state) ==> unchanged(state)
      ensures leader == old(NextLeader(from, msg))
      // Who may say what, at any server: a notice counts from a trusted peer or the leader ...
      ensures msg.LeaderNotice? ==> leader == if from in trustedPeers || old(leader) == from then msg.leader else old(leader)
      // ... so does an assignment, if it is addressed to this server ...
      ensures msg.AssignmentResponse? ==>
          if (from in trustedPeers || old(leader) == from) && msg.peer == id
          then leader == msg.leaderId && topic == msg.topic && electable == msg.electable
               && reply == if msg.electable then Some(RaftAddrsWanted(addr)) else None
          else leader == old(leader) && topic == old(topic) && electable == old(electable) && reply == None
      ensures !msg.AssignmentResponse? ==> topic == old(topic) && electable == old(electable)
      ensures !msg.AssignmentResponse? && !msg.LeaderNotice? ==> leader == old(leader)
      // ... and the leader, and nobody else, answers a newcomer with its own topic and itself.
      ensures msg.AssignmentRequest? ==> reply == if old(leader) == id then Some(Assigned(from, old(topic), id)) else None
      ensures msg.RaftAddrsRequest? ==> reply == if from in trustedPeers && onTopic == old(topic) then Some(RaftAddrs(addr)) else None
      ensures !(IsJobRequest(msg) || msg.AssignmentRequest? || msg.AssignmentResponse? || msg.RaftAddrsRequest?) ==> reply == None
      ensures pushed == old(pushed) + if msg.PeersSummary? && old(leader) == from then [PeersPush(msg.estimate)] else []
      ensures connected == old(connected)
                           + (if msg.RaftAddrsRequest? && from in trustedPeers && onTopic == old(topic) then [msg.addr] else [])
                           + (if msg.RaftAddrsResponse? && old(electable) && (from in trustedPeers || old(leader) == from) then [msg.addr] else [])
    {
      if !CanHandleMessage(from, msg) {
        return None, false;
      }
      var v := NotFound;
      match msg {
        case AssignmentRequest =>
          return Some(Assigned(from, topic, leader)), false;
        case RaftAddrsRequest(peerAddr) =>
          reply := OnRaftAddrsRequest(onTopic, from, peerAddr);
          return reply, false;
        case AssignmentResponse(_, newTopic, leaderId, asElectable) =>
          reply := OnAssignmentResponse(leaderId, newTopic, asElectable);
          return reply, false;
        case PeersSummary(estimate) =>
          pushed := pushed + [PeersPush(estimate)];
          return None, false;
        case RaftAddrsResponse(peerAddr) =>
          connected := connected + [peerAddr];
          return None, false;
        case SetJobRequest(job) => v := OnSetJobRequest(from, job, now);
        case DeleteJobRequest(jid) => v := OnDeleteJobRequest(from, jid, now);
        case AcquireJobRequest(jid) => v := OnAcquireJobRequest(from, jid, now);
        case ReleaseJobRequest(jid) => v := OnReleaseJobRequest(from, jid, now);
        case StateUpdate(s) =>
          if leader == from {
            state := s;
          }
          return None, false;
        case LeaderNotice(l) =>
          leader := l;
          return None, false;
        case _ =>
          return None, false;
      }
      if v != Done {
        return None, true;
      }
      return Some(Jobs(Abs())), false;
    }

    // -------------------------------------------------------------- the main loop

    /** A command from the local wrapper: always one of the four job requests. The leader serves it as
        its own; anyone else forwards it to the topic. Either way the wrapper gets one answer. */
    method OnCommand(msg: Message, now: int)
      requires Valid() && WellFormed(id, msg) && IsJobRequest(msg)
      modifies this, state, state.jobs.Values, Carried(msg)
      ensures Valid() && leader == old(leader) && state == old(state) && topic == old(topic) && electable == old(electable)
      ensures state.jobs.Values <= old(state.jobs.Values) + Carried(msg) && connected == old(connected)
      ensures leader == id ==>
          var (jobs, v) := Serve(old(Abs()), id, now, old(RequestOf(msg)));
          && Abs() == jobs
          && published == old(published) + (if v == Done then [Jobs(jobs)] else [])
          && pushed == old(pushed) + (if v == Done then [StatePush(jobs)] else [])
          && answered == old(answered) + [if v == Done then OkReply else ErrorReply]
      ensures leader != id ==>
          && Abs() == old(Abs()) && published == old(published) + [Forwarded(msg)]
          && pushed == old(pushed) && answered == old(answered) + [OkReply]
    {
      var failed := false;
      if id == leader {
        var reply;
        reply, failed := Handle(topic, id, msg, now);
        if !failed && reply.Some? {
          published := published + [reply.value];
          pushed := pushed + [StatePush(reply.value.jobs)];
        }
      } else {
        published := published + [Forwarded(msg)];
      }
      answered := answered + [if failed then ErrorReply else OkReply];
    }

    /** A message from a topic: its reply, if any, goes back there. */
    method OnPubsub(onTopic: string, from: PeerId, msg: Message, now: int)
      requires Valid() && WellFormed(from, msg)
      modifies this`state, this`leader, this`topic, this`electable, this`connected, this`pushed, this`published
      modifies state, state.jobs.Values, Carried(msg)
      ensures Valid() && leader == old(NextLeader(from, msg))
      ensures state == if msg.StateUpdate? && old(leader) == from then msg.state else old(state)
      ensures IsJobRequest(msg) ==> state.jobs.Values <= old(state.jobs.Values) + Carried(msg)
      ensures !IsJobRequest(msg) && state == old(state) ==> unchanged(state)
      ensures pushed == old(pushed) + if msg.PeersSummary? && old(leader) == from then [PeersPush(msg.estimate)] else []
      ensures IsJobRequest(msg) && old(leader) == id ==>
          var (jobs, v) := Serve(old(Abs()), from, now, old(RequestOf(msg)));
          Abs() == jobs && published == old(published) + (if v == Done then [Jobs(jobs)] else [])
      ensures !(IsJobRequest(msg) && old(leader) == id) ==>
          && published == old(published) + (var r := old(SideReply(onTopic, from, msg)); if r.Some? then [r.value] else [])
          && Abs() == if msg.StateUpdate? then Adopt(old(Abs()), old(leader), from, old(msg.state.Abs())) else old(Abs())
      ensures old(leader) == id && !IsJobRequest(msg) && (msg.StateUpdate? ==> from != id) ==>
          (leader == id <==> KeepsOffice(id, trustedPeers, Other(onTopic, from, msg)))
    {
      var reply, failed := Handle(onTopic, from, msg, now);
      if !failed && reply.Some? {
        published := published + [reply.value];
      }
    }

    /** The register changed: the wrapper gets the whole state. */
    method OnStateChange()
      modifies this`pushed
      ensures pushed == old(pushed) + [StatePush(Abs())]
    {
      pushed := pushed + [StatePush(Abs())];
    }

    /** Leadership changed: a server that finds itself leader announces that, and its state. */
    method OnLeaderChange()
      modifies this`published, this`pushed
      ensures published == old(published) + if leader == id then [LeaderIs(id), Jobs(Abs())] else []
      ensures pushed == old(pushed) + if leader == id then [StatePush(Abs())] else []
    {
      if leader == id {
        published := published + [LeaderIs(leader)];
        published := published + [Jobs(Abs())];
        pushed := pushed + [StatePush(Abs())];
      }
    }

    /** A command at the leader takes the register one value-level step. */
    method ServeCommand(now: int, req: Request)
      requires Valid() && leader == id
      modifies this, state, state.jobs.Values
      ensures Valid() && leader == id && state == old(state)
      ensures forall j | j in state.jobs.Values :: fresh(j) || j in old(state.jobs.Values)
      ensures var (jobs, v) := Serve(old(Abs()), id, now, req);
              && Abs() == jobs
              && published == (if v == Done then old(published) + [Jobs(jobs)] else old(published))
              && pushed == (if v == Done then old(pushed) + [StatePush(jobs)] else old(pushed))
              && answered == old(answered) + [if v == Done then OkReply else ErrorReply]
    {
      var msg := Unmarshal(req);
      OnCommand(msg, now);
    }

    /** So does a request from the topic, which is published but not pushed. */
    method ServeTopic(onTopic: string, ev: Event)
      requires Valid() && leader == id
      modifies this`leader, this`topic, this`electable, this`connected, this`state, this`pushed, this`published
      modifies state, state.jobs.Values
      ensures Valid() && leader == id && state == old(state)
      ensures forall j | j in state.jobs.Values :: fresh(j) || j in old(state.jobs.Values)
      ensures var (jobs, v) := Serve(old(Abs()), ev.from, ev.now, ev.req);
              && Abs() == jobs && pushed == old(pushed)
              && published == if v == Done then old(published) + [Jobs(jobs)] else old(published)
    {
      var msg := Unmarshal(ev.req);
      OnPubsub(onTopic, ev.from, msg, ev.now);
    }

    /** Any other message that keeps the server in office leaves the jobs alone, and sends no state. */
    method ServeOther(onTopic: string, from: PeerId, msg: Message)
      requires Valid() && leader == id && KeepsOffice(id, trustedPeers, Other(onTopic, from, msg))
      modifies this`leader, this`topic, this`electable, this`connected, this`state, this`pushed, this`published
      modifies state, state.jobs.Values
      ensures Valid() && leader == id && state == old(state) && unchanged(state) && Abs() == old(Abs())
      ensures JobsIn(published) == old(JobsIn(published)) && StatesIn(pushed) == old(StatesIn(pushed))
    {
      ghost var reply := SideReply(onTopic, from, msg);
      OnPubsub(onTopic, from, msg, 0);
      if reply.Some? {
        JobsInMore(old(published), reply.value);
      } else {
        assert published == old(published);
      }
      if msg.PeersSummary? && from == old(leader) {
        StatesInMore(old(pushed), PeersPush(msg.estimate));
      } else {
        assert pushed == old(pushed);
      }
    }

    /** One turn of a server in office. */
    method Receive(turn: Turn)
      requires Valid() && leader == id && KeepsOffice(id, trustedPeers, turn)
      modifies this, state, state.jobs.Values
      ensures Valid() && leader == id && state == old(state)
      ensures forall j | j in state.jobs.Values :: fresh(j) || j in old(state.jobs.Values)
      ensures Abs() == TurnAfter(id, old(Abs()), turn)
      ensures JobsIn(published) == old(JobsIn(published)) + TurnPublishes(id, old(Abs()), turn)
      ensures StatesIn(pushed) == old(StatesIn(pushed)) + TurnPushes(id, old(Abs()), turn)
      ensures |answered| == |old(answered)| + if turn.Command? then 1 else 0
    {
      hide State.Valid, State.Abs, Serve, JobsIn, StatesIn, KeepsOffice;
      JobsInMore(published, Jobs(TurnAfter(id, Abs(), turn)));
      StatesInMore(pushed, StatePush(TurnAfter(id, Abs(), turn)));
      match turn {
        case Command(now, req) => ServeCommand(now, req);
        case FromTopic(onTopic, ev) => ServeTopic(onTopic, ev);
        case Other(onTopic, from, msg) => ServeOther(onTopic, from, msg);
        case StateChanged => OnStateChange();
        case LeaderChanged =>
          OnLeaderChange();
          LeaderPackets(old(published), Abs());
      }
    }

    lemma LeaderPackets(packets: seq<Packet>, jobs: JobMap)
      ensures JobsIn(packets + [LeaderIs(id), Jobs(jobs)]) == JobsIn(packets) + [jobs]
    {
      JobsInMore(packets, LeaderIs(id));
      JobsInMore(packets + [LeaderIs(id)], Jobs(jobs));
      assert packets + [LeaderIs(id)] + [Jobs(jobs)] == packets + [LeaderIs(id), Jobs(jobs)];
    }

    /** The main loop of a server in office, over any turns that keep it there: the register is the fold of
        the job requests alone, and the states sent to the topic and to the wrapper are the ones
        `SentInOrder` places in that run. */
    method Loop(turns: seq<Turn>)
      requires Valid() && leader == id
      requires forall i | 0 <= i < |turns| :: KeepsOffice(id, trustedPeers, turns[i])
      modifies this, state, state.jobs.Values
      ensures Valid() && leader == id
      ensures Abs() == Register(id, old(Abs()), turns, |turns|)
      ensures JobsIn(published) == old(JobsIn(published)) + Published(id, old(Abs()), turns, |turns|)
      ensures StatesIn(pushed) == old(StatesIn(pushed)) + Pushed(id, old(Abs()), turns, |turns|)
    {
      hide TurnAfter, TurnPublishes, TurnPushes, JobsIn, StatesIn, JobsAfter, Serve, KeepsOffice, State.Valid, State.Abs;
      ghost var init := Abs();
      RegisterStart(id, init, turns);
      for n := 0 to |turns|
        invariant Valid() && leader == id && state == old(state)
        invariant forall j | j in state.jobs.Values :: fresh(j) || j in old(state.jobs.Values)
        invariant Abs() == Register(id, init, turns, n)
        invariant JobsIn(published) == old(JobsIn(published)) + Published(id, init, turns, n)
        invariant StatesIn(pushed) == old(StatesIn(pushed)) + Pushed(id, init, turns, n)
      {
        RegisterStep(id, init, turns, n);
        Receive(turns[n]);
      }
    }
  }

  /** A job request off the wire, with a job object of its own. */
  method Unmarshal(req: Request) returns (msg: Message)
    ensures IsJobRequest(msg) && RequestOf(msg) == req && fresh(Carried(msg))
  {
    match req {
      case SetJob(job) =>
        var j := new Job(job.id, job.content, job.lock);
        msg := SetJobRequest(j);
      case DeleteJob(jid) => msg := DeleteJobRequest(jid);
      case AcquireJob(jid) => msg := AcquireJobRequest(jid);
      case ReleaseJob(jid) => msg := ReleaseJobRequest(jid);
    }
  }
}
