/** The wrapper's cache of the WAN queue, rebuilt from every state the server pushes. */
module WanQueue {
  import opened Wrappers
  import opened JobState
  import opened JobDisplay

  /** A decoded manifest; opaque to the queue. */
  type Manifest(==, !new)

  /** What the wrapper shows for a job: the manifest, its owner, and its holder if it counts as acquired. */
  datatype JobView = JobView(manifest: Manifest, peer: PeerId, acquiredBy: Option<PeerId>)

  /** The arguments of one update callback, which the wrapper calls with the old and the new cache. */
  datatype Callback = JobsChanged(oldJobs: map<JobId, JobView>, newJobs: map<JobId, JobView>) | PeersChanged(oldPeers: int, newPeers: int)

  class PeerPrintQueue {
    const decode: (Blob, Blob) -> Manifest
    var jobs: map<JobId, JobView>
    var peers: int
    var ready: bool
    var callbacks: seq<Callback>

    constructor (decode: (Blob, Blob) -> Manifest)
      ensures this.decode == decode && jobs == map[] && !ready && callbacks == []
    {
      this.decode := decode;
      jobs, peers, ready, callbacks := map[], 0, false, [];
    }

    /** The new cache is the pushed state seen through the display window at `now`. The callback gets the
        new value twice: the old one is copied but not passed on. */
    method Update(msg: Push, now: real)
      modifies this
      ensures ready
      ensures msg.StatePush? ==>
          && jobs.Keys == msg.jobs.Keys && peers == old(peers)
          && (forall k | k in jobs :: jobs[k] == JobView(decode(msg.jobs[k].content.data, msg.jobs[k].content.protocol),
                                                        msg.jobs[k].content.owner, ShownHolder(msg.jobs[k].lock, now)))
          && (forall k | k in jobs && msg.jobs[k].lock.Some? ::
                jobs[k].acquiredBy == if now < msg.jobs[k].lock.value.created as real + 3600.0
                                      then Some(msg.jobs[k].lock.value.peer) else None)
          && (forall k | k in jobs && msg.jobs[k].lock.None? :: jobs[k].acquiredBy == if now < 3600.0 then Some("") else None)
          && callbacks == old(callbacks) + [JobsChanged(jobs, jobs)]
      ensures msg.PeersPush? ==>
          jobs == old(jobs) && peers == msg.estimate && callbacks == old(callbacks) + [PeersChanged(peers, peers)]
    {
      var expiry := now - DISPLAY_SECONDS;
      match msg {
        case StatePush(pushed) =>
          var newjobs: map<JobId, JobView> := map[];
          var todo := pushed.Keys;
          while todo != {}
            invariant todo <= pushed.Keys && newjobs.Keys == pushed.Keys - todo
            invariant forall k | k in newjobs ::
                newjobs[k] == JobView(decode(pushed[k].content.data, pushed[k].content.protocol),
                                      pushed[k].content.owner, ShownHolder(pushed[k].lock, now))
            decreases todo
          {
            var k :| k in todo;
            var v := pushed[k];
            var view := JobView(decode(v.content.data, v.content.protocol), v.content.owner, None);
            var created: int := if v.lock.Some? then v.lock.value.created else 0;
            if created as real > expiry {
              view := view.(acquiredBy := Some(if v.lock.Some? then v.lock.value.peer else ""));
            }
            newjobs := newjobs[k := view];
            todo := todo - {k};
          }
          jobs := newjobs;
          callbacks := callbacks + [JobsChanged(jobs, newjobs)];
        case PeersPush(estimate) =>
          peers := estimate;
          callbacks := callbacks + [PeersChanged(peers, estimate)];
      }
      ready := true;
    }
  }
  /** A wrapper that gets the state after a granted acquire shows the holder for exactly an hour. */
  method ShowAcquired(queue: PeerPrintQueue, before: JobMap, p: PeerId, clock: int, id: JobId, now: real)
    requires Serve(before, p, clock, AcquireJob(id)).1 == Done && 0 <= clock < TWO64
    modifies queue
    ensures id in queue.jobs
    ensures queue.jobs[id].acquiredBy == if now < clock as real + 3600.0 then Some(p) else None
  {
    AcquiredIsShown(before, p, clock, id, now);
    queue.Update(StatePush(Serve(before, p, clock, AcquireJob(id)).0), now);
  }

  /** One that gets the state after a granted release shows nobody, at any clock past its first hour. */
  method ShowReleased(queue: PeerPrintQueue, before: JobMap, p: PeerId, clock: int, id: JobId, now: real)
    requires Serve(before, p, clock, ReleaseJob(id)).1 == Done && now >= 3600.0
    modifies queue
    ensures id in queue.jobs && queue.jobs[id].acquiredBy == None
  {
    ReleasedIsShown(before, p, clock, id, now);
    queue.Update(StatePush(Serve(before, p, clock, ReleaseJob(id)).0), now);
  }
}
