# PeerPrint verification model

PeerPrint shares a print queue between peers. On a local network the queue is a set of objects replicated through an agreed log; on the wide area network a leader serves job requests and publishes its state. This project models the state machines that keep that queue correct and proves what they promise.

- **Lease locks** (`LeaseTable.dfy`, `LeaseSafety.dfy`, `LockManager.dfy`). Every replica folds the same log of acquire, prolongate and release commands into a lock table; clients judge ownership on a replica that may lag behind. A replica is a prefix of the log. Proved: mutual exclusion between clients on different prefixes, and exactly which commands it survives; keep-alive from the prolongation thread's own timing; what the answers of a synchronous acquisition are worth; callbacks that replay to the table.
- **Ordered dict** (`QueueOrder.dfy`, `QueueLinks.dfy`, `OrderedDict.dfy`, `QueueRuns.dfy`, `QueueReplica.dfy`). A doubly linked order kept in two dicts. `repair` is false for the code as it stands and true for the code with one back link added to the front insert. A key is *stale* when its back link is None although it has a predecessor. Proved: what every operation does to links, order and data in any state; the chain invariant; and exactly which whole runs list what an association list holds.
- **WAN leader** (`JobState.dfy`, `JobServer.dfy`, `JobDisplay.dfy`, `WanQueue.dfy`). Job handlers that update shared job objects in place, the message gate and the main loop over any turns refine a step on a map of job values. Proved on runs of that step: lease safety for two hours, listeners that only ever show earlier leader states in order, and exactly when the display window shows only locks the leader enforces, and that a released job is open and an acquired one is shown.
- **Discovery** (`Discovery.dfy`). Ping, prune and startup steps and the thread that issues them. Proved: the cluster membership is the host table whenever the queue runs, the table is exactly explained by the pings and prunes so far, and each round's pings are exactly those that arrive in time.

Clock readings, consensus replies, codecs and the network are parameters. Identifiers, blobs and stored values are types about which nothing is known but equality.

## What the code does not promise

- **A late refresh or a fast clock breaks exclusion.** Acquire and prolongate overwrite the stored time. `ExclusionExact` gives the condition for each command, in both directions: exclusion survives it if and only if the holder's own acquire or prolongate is stamped no earlier than the lease it refreshes, nobody's stamp is more than the timeout after the lease (for an acquire, on the same lock by another client), and it is not the holder's release. Smallest logs: `LateRefreshBreaksExclusion`, `FastClockBreaksExclusion`.
- **A timed-out acquisition may still take the lock.** `acquireJob` then answers false, nothing is released, and the prolongation thread keeps the lock. `FalseAnswer` shows this is the only way a false answer leaves the caller holding the lock.
- **A front insert leaves the old head's back link at None.** Unlinking that key later restarts the chain behind it and hides everything in front of it. An operation that unlinks a key has its intended effect if and only if the key is not stale (`Pop`, `Mv`; smallest case `FrontThenPop`). It can also link a key to itself, and then the listing never ends (`FrontThenLoop`). A plain run is listed correctly after every prefix if and only if it never unlinks a stale key (`ListedCorrectlyExact`).
- **Three rejected operations change something.** `mv(k, k)` drops `k` from the order but not from the data, popping such a lost key deletes its data and then fails, and setting a value over a stored None stores it and then fails its assertion. All three are modelled as they are; `RejectedUnchanged` shows there are no others.
- **A lock filed with a brand-new job is taken as it comes.** If it is dated two seconds or more ahead of the leader's clock, the display can outlive the lease. Showing a state is conservative, against every continuation and every display time, if and only if the shown lock is dated at most one second ahead (`DisplayExact`); for a newly filed lock that is a test on the request (`NewJobShownExact`). A lock sent along with a job already stored is overwritten and does no harm.
- **Before the clock reaches two hours the expiry bound wraps** and hardly any lock bars anyone (`LockBars`).
- The comment on `DeleteJobRequest` in `proto/jobs.proto` says that deleting a missing job fails silently; the handler returns an error, and the model follows the handler.
- The wrapper's update callback is given the new cache twice; the model follows the code.

## Model

| member | source | states |
|---|---|---|
| LeaseTable.ReplLockManagerImpl.Acquire | peerprint/sync_objects.py:143-158 | Granted exactly when the lock is free, expired or already the caller's; the table changes only then; the callback names the standing holder; the table stays the fold of the log and the callbacks replay to it. |
| LeaseTable.ReplLockManagerImpl.Prolongate | peerprint/sync_objects.py:160-171 | The loop that deletes and updates while walking a copy of the keys equals the pointwise map "drop if expired, refresh if mine, otherwise keep", whatever the order, with one removal callback per expired lock. |
| LeaseTable.ReplLockManagerImpl.Release | peerprint/sync_objects.py:173-178 | Removes the lock, with one callback, exactly when the caller holds it. |
| LeaseTable.ReplLockManagerImpl.IsAcquiredBy | peerprint/sync_objects.py:180-186 | True exactly for the holder of a lease strictly younger than the timeout. |
| LeaseTable.ReplLockManagerImpl.constructor | peerprint/sync_objects.py:136-141 | Starts with an empty table, no callbacks and an empty log. |
| LeaseTable.EqualPrefixesEqualTables | peerprint/sync_objects.py:143-178 | Replicas that have applied the same commands hold the same table. |
| LeaseTable.LeaseAges | peerprint/sync_objects.py:143-186 | Younger than the timeout a lease is its holder's, older it is anyone's, and at exactly the timeout it is neither owned nor up for takeover and survives every prolongation. |
| LeaseTable.LeaseWritten | peerprint/sync_objects.py:143-178 | A granted acquire leaves the caller's lease under the caller's time, a prolongation leaves all the caller's leases within the timeout and everyone else's untouched, and after a release the caller does not hold the lock; nothing else changes. |
| LeaseTable.StandingExact | peerprint/sync_objects.py:145-155 | The holder a grant reports as previous is nobody exactly when any client would have been granted the lock, and otherwise the only client that would. |
| LeaseTable.ReplaySet | peerprint/sync_objects.py:154-155 | A set callback keeps the replayed trace equal to the lock-to-holder projection. |
| LeaseTable.ReplayDrop | peerprint/sync_objects.py:166-167 | A removal callback keeps the replayed trace equal to the lock-to-holder projection. |
| LeaseTable.ExpiriesExact | peerprint/sync_objects.py:162-168 | A prolongation reports every expired lock once and no other, whatever the order of the walk. |
| LeaseSafety.LeaseSurvivesStep | peerprint/sync_objects.py:143-178 | Exactly which commands leave a lease with its holder and no older. |
| LeaseSafety.LeaseHasOrigin | peerprint/sync_objects.py:154-171 | Every lease was written by an earlier stamped command of its holder. |
| LeaseSafety.LeasePersists | peerprint/sync_objects.py:143-186 | A lease live at a time persists, no older, in every longer prefix stamped by that time, unless its holder releases it. |
| LeaseSafety.LeaseExclusion | peerprint/sync_objects.py:143-186 | Two clients cannot own a lock at one time on different prefixes unless the one on the shorter prefix released it in between. |
| LeaseSafety.ExclusionExact | peerprint/sync_objects.py:143-186 | For every table and command, two stamp bounds and no release by the holder are exactly what keeps every later client from owning the lock while a lagging replica still shows its holder. |
| LeaseSafety.SecondOwner | peerprint/sync_objects.py:143-186 | Every command outside those bounds can be continued to a second owner beside the first. |
| LeaseSafety.TableFromPrefix | peerprint/sync_objects.py:143-178 | A lagging replica reaches the longer one by applying the commands it lacks. |
| LeaseSafety.LateRefreshBreaksExclusion | peerprint/sync_objects.py:154-171 | A log whose only fault is a refresh out of timestamp order has two owners at once. |
| LeaseSafety.FastClockBreaksExclusion | peerprint/sync_objects.py:148-154 | A log whose only fault is a command stamped in the future has two owners at once. |
| LeaseSafety.GrantIsExclusive | peerprint/sync_objects.py:143-186 | A granted acquire owns the lock on every replica that has applied it, and nobody else does anywhere, while its own lease lasts. |
| LeaseSafety.KeepAlive | peerprint/sync_objects.py:143-178 | If prolongation gap plus commit delay fit in the timeout, no command of anyone ever removes a lock its holder has not released. |
| LeaseSafety.FreshEnough | peerprint/sync_objects.py:160-171 | When any command commits, the kept lease is no older than gap plus delay. |
| LockManager.CPReplLockManager.constructor | peerprint/sync_objects.py:191-201 | A manager starts with nothing issued and a last prolongation at time zero. |
| LockManager.CPReplLockManager.AutoAcquireThread | peerprint/sync_objects.py:212-228 | Exactly the turns with a leader that come at least a quarter of the timeout after the mark of the issue before prolong, each under its own stamp; the last prolongation time is the mark of the last of them, and no other turn moves it. |
| LockManager.IssuesDecided | peerprint/sync_objects.py:221-228 | That rule leaves no choice: the polls and the starting value decide which turns issue. |
| LockManager.LeaderlessTurn | peerprint/sync_objects.py:226-228 | A turn without a leader neither issues nor delays the next turn that has one. |
| LockManager.FirstIssue | peerprint/sync_objects.py:221-228 | The first turn with a leader issues if it is due, however many turns without one came before. |
| LockManager.IssueGaps | peerprint/sync_objects.py:221-228 | If turns with a leader are at most one period apart, whatever comes between them, successive prolongations are at most a quarter of the timeout plus that period apart, and the last turn with a leader is at most a quarter of the timeout behind the last one. |
| LockManager.ThreadKeepsLeases | peerprint/sync_objects.py:212-228 | With turns that have a leader and commit delay within three quarters of the timeout, the thread never loses a lock its client has not released. |
| LockManager.CPReplLockManager.TryAcquire | peerprint/sync_objects.py:232-241 | True exactly for a grant that returns within half the timeout; a later grant, and nothing else, issues a release. |
| LockManager.CPReplLockManager.AcquireJob | peerprint/lan_queue.py:139-143 | As tryAcquire, with a timeout answered by false and nothing released. |
| LockManager.TrueAnswerIsExclusive | peerprint/sync_objects.py:232-241 | A true answer is exclusive ownership for half the timeout after the return, with no further prolongation. |
| LockManager.FalseAnswer | peerprint/lan_queue.py:139-143 | A false answer leaves the caller without the lock, if and only if it was not a timeout whose command was granted after all. |
| LockManager.CPReplLockManager.NotAcquired | peerprint/sync_objects.py:259-264 | An open lock would be granted to anyone, one not open only to its holder. |
| LockManager.CPReplLockManager.GetPeerLocks | peerprint/sync_objects.py:266-273 | Groups exactly the locks seen live at their own clock reading under their holders, without repetition or empty groups. |
| LockManager.CPReplLockManager.GetLocks | peerprint/lan_queue.py:123-128 | Inverting the grouping loses nothing: each lock seen live is mapped to its holder, and no other. |
| LockManager.SeenAtOwnReading | peerprint/sync_objects.py:266-273 | Each lock is judged by the clock reading of its own turn of the loop. |
| LockManager.SeenLiveWindow | peerprint/sync_objects.py:269-272 | With readings inside a window, every lock live at its end is seen and none dead at its start. |
| QueueLinks.CutLinks | peerprint/sync_objects.py:53-72 | Unlinking a key whose back link is exact keeps every link exact for the order without it, and makes its successor's back link exact. |
| QueueLinks.TieFrontLinks | peerprint/sync_objects.py:77-82 | Linking in front keeps the chain exact and makes the old head, and only it, stale; with one more assignment nothing is stale. |
| QueueLinks.TieBehindLinks | peerprint/sync_objects.py:83-96 | Linking behind a key keeps every link exact and repairs the back link of the key that follows. |
| QueueLinks.StaleCut | peerprint/sync_objects.py:53-72 | Unlinking a stale key makes its follower the first, and the chain what lies behind it. |
| QueueLinks.SetHolds | peerprint/sync_objects.py:26-31 | Links that carry an order carry the intended one after any set, with the intended outcome. |
| QueueLinks.PopHolds | peerprint/sync_objects.py:37-43 | The same for popping a key that is not stale. |
| QueueLinks.MvHolds | peerprint/sync_objects.py:98-102 | The same for a move that unlinks no stale key, rejected moves included. |
| QueueLinks.StrandedPop | peerprint/sync_objects.py:37-43 | After popping a stale key the walk does not give the intended listing, whatever the order was. |
| QueueLinks.StrandedMv | peerprint/sync_objects.py:98-102 | Nor does it after a move that unlinks a stale key, wherever the key goes. |
| QueueLinks.HoldsShows | peerprint/sync_objects.py:129-133 | When the links carry an order, the walk ends and lists exactly that order with its values. |
| QueueLinks.SelfLoop | peerprint/sync_objects.py:129-133 | A walk that reaches a key linked to itself never leaves it. |
| OrderedDict.CPOrderedReplDict.constructor | peerprint/sync_objects.py:13-24 | An empty dict carries the empty order. |
| OrderedDict.CPOrderedReplDict.Unlink | peerprint/sync_objects.py:53-72 | The statements in their order are the value-level cut in any state, stale and cyclic ones included; an unknown key changes nothing. |
| OrderedDict.CPOrderedReplDict.Link | peerprint/sync_objects.py:74-96 | The statements in their order are the value-level tie in any state; an already linked key or an unknown destination changes nothing. |
| OrderedDict.CPOrderedReplDict.SetItem | peerprint/sync_objects.py:26-31 | In any state the value-level step and one callback; where the links carry the order, a new key is appended, a known one keeps its place, and over a stored None the assertion fails after the store. |
| OrderedDict.CPOrderedReplDict.Pop | peerprint/sync_objects.py:37-43 | In any state the value-level step; where the links carry the order, exactly the key goes, and the links carry the new order if and only if the key was not stale; otherwise the walk is what lay behind it and not the intended listing. |
| OrderedDict.CPOrderedReplDict.Mv | peerprint/sync_objects.py:98-102 | In any state the value-level step; where the links carry the order, the key is moved or the move rejected, and the links carry the new order if and only if no stale key was unlinked; otherwise the walk is not the intended listing. |
| OrderedDict.CPOrderedReplDict.OrderedItems | peerprint/sync_objects.py:129-133 | In every state in which the walk ends, lists what it passes; where the links carry the order, exactly that order with current values. |
| OrderedDict.PopOutcome | peerprint/sync_objects.py:37-43 | A pop keeps links and order together if and only if the key is not stale. |
| OrderedDict.MvOutcome | peerprint/sync_objects.py:98-102 | A move keeps links and order together if and only if it unlinks no stale key. |
| OrderedDict.FrontThenPop | peerprint/sync_objects.py:77-82 | Four keys, the last sent to the front, the old head popped: the new head is in the data but not in the chain. |
| OrderedDict.FrontThenLoop | peerprint/sync_objects.py:129-133 | Four keys, the last sent to the front, the old head moved behind it, the new head popped: the listing never ends. |
| QueueOrder.MoveCharacterised | peerprint/sync_objects.py:98-102 | The relinked order is the only one in which the key directly follows its destination and nothing else has moved. |
| QueueOrder.MoveUndone | peerprint/sync_objects.py:98-102 | Moving a key and moving it back behind its original predecessor restores the order. |
| QueueOrder.StrandsTheFront | peerprint/sync_objects.py:65-66 | A chain restarted behind a key that was not first is never the intended order. |
| QueueRuns.StepRefines | peerprint/sync_objects.py:26-43 | Each intended operation acts on the listing as on an association list, and is rejected exactly when it names an absent key. |
| QueueRuns.RejectedUnchanged | peerprint/sync_objects.py:26-102 | A rejected operation leaves order and data alone, with exactly three exceptions. |
| QueueRuns.RunRefines | peerprint/sync_objects.py:26-102 | Every plain run of the intended operations lists what the association list holds. |
| QueueRuns.StaleOrigin | peerprint/sync_objects.py:77-82 | Only a front insert makes a key stale, and then it is the old head. |
| QueueRuns.NeverStale | peerprint/sync_objects.py:74-96 | No key is ever stale with the missing link added, or in runs that never send a key to the front. |
| QueueRuns.PlainIsCareful | peerprint/sync_objects.py:74-96 | So all those runs rely on exact back links only. |
| QueueRuns.MoveRoundTrip | peerprint/sync_objects.py:98-102 | A move of a key with an exact back link is undone by a second move, in both versions; completely so with the missing link added. |
| QueueRuns.ListedOnce | peerprint/sync_objects.py:129-133 | The listing names every key of the data exactly once with its value. |
| QueueReplica.StepHolds | peerprint/sync_objects.py:26-102 | One operation keeps links and order together if it unlinks no stale key, and loses the intended listing if it does. |
| QueueReplica.RunHolds | peerprint/sync_objects.py:26-102 | Over a whole run the links carry the intended order as long as no stale key is unlinked. |
| QueueReplica.ListedCorrectlyExact | peerprint/sync_objects.py:26-133 | A plain run is listed as the association list after every prefix if and only if it never unlinks a stale key, with and without the back link added. |
| QueueReplica.ApplyLog | peerprint/sync_objects.py:12-102 | The linked dict applies any log at all, raising operations included, to the state the value-level steps give. |
| QueueReplica.ListAfterLog | peerprint/sync_objects.py:12-133 | The linked dict, created, run over a log that never relies on a stale link, and listed by its chain, gives the association list. |
| QueueReplica.ListAfterPlainLog | peerprint/sync_objects.py:12-133 | With the missing back link added, so does every log that stores real values and never moves a key behind itself. |
| JobState.ServeFrame | peerprint/server/server/handlers.go:178-227 | A request touches at most the named job, a refused one nothing; a surviving job's lock changes only by acquire or release, its content only by set; jobs stay filed under their ids. |
| JobState.OpenExact | peerprint/server/server/server.go:293-300 | A job is open to every peer at every clock exactly when it has no lock or one that names nobody. |
| JobState.Answers | peerprint/server/server/handlers.go:178-227 | A job is not found exactly when it is absent and not being set; refusals come only from another peer's lock, and are the same for all four requests. |
| JobState.AcquireTakes | peerprint/server/server/handlers.go:208-218 | A granted acquire leaves the job as it was under a lock with the sender's name and the leader's clock. |
| JobState.ReleaseOpens | peerprint/server/server/handlers.go:220-227 | After a granted release the job is still filed with its content and without a lock, and any peer's acquire at any clock is granted. |
| JobState.DeleteForgets | peerprint/server/server/handlers.go:199-206 | After a granted delete nobody finds the job, and a set by anyone files it anew as sent. |
| JobState.SetFiles | peerprint/server/server/handlers.go:178-197 | A new job is filed as sent, lock included; a stored one takes the new content and keeps its lock. |
| JobState.LockBars | peerprint/server/server/server.go:293-300 | A lock bars another peer exactly up to and including two hours after its creation; exactly when it does before the clock reaches two hours. |
| JobState.LeaseHolds | peerprint/server/server/handlers.go:178-227 | From any state in which a peer holds a lease no older than a bound, until two hours after that bound or a give-up, the job stays, the lease stays no older than the bound, and the content is exactly the peer's own writes. |
| JobState.AcquireIsSafe | peerprint/server/server/handlers.go:208-218 | A granted acquire is worth two hours of all that, and every other peer's request for the job is denied. |
| JobState.ReleasedUntilAsked | peerprint/server/server/handlers.go:178-227 | Over any run, a released job lies open and unchanged until somebody asks for it, and whoever asks first is served. |
| JobState.FiledAlways | peerprint/server/server/handlers.go:195-204 | In every reachable state the map key is the job's id. |
| JobServer.Server.constructor | peerprint/server/server/server.go:57-105 | A server starts with no jobs, no leader and nothing sent; a trusted one has assigned itself to the default topic as electable. |
| JobServer.Server.CheckMutable | peerprint/server/server/server.go:293-300 | Allows the holder, anyone when unlocked, and anyone once the lock is older than the timeout. |
| JobServer.Server.GetMutableJob | peerprint/server/server/server.go:302-315 | The stored object itself, or not found, or denied. |
| JobServer.Server.OnSetJobRequest | peerprint/server/server/handlers.go:178-197 | Stores the request's own object with the stored job's lock; refused, it changes neither state nor object; distinct keys keep distinct objects. |
| JobServer.Server.OnDeleteJobRequest | peerprint/server/server/handlers.go:199-206 | Removes exactly that key, or changes nothing. |
| JobServer.Server.OnAcquireJobRequest | peerprint/server/server/handlers.go:208-218 | Writes only the named object's lock, with sender and clock, or nothing. |
| JobServer.Server.OnReleaseJobRequest | peerprint/server/server/handlers.go:220-227 | Clears only the named object's lock, or nothing; what a cleared lock is worth is stated by JobState.ReleaseOpens. |
| JobServer.Server.OnAssignmentResponse | peerprint/server/server/handlers.go:126-159 | Topic, role and leader become the assigned ones; an electable server answers with a request for addresses. |
| JobServer.Server.OnRaftAddrsRequest | peerprint/server/server/handlers.go:161-171 | Connects and answers exactly for a trusted sender on the server's own topic. |
| JobServer.Server.Handle | peerprint/server/server/handlers.go:31-102 | At any server: jobs change only by a job request at the leader or a state from the leader; a notice counts exactly from a trusted peer or the leader, an assignment only if also addressed to this server; newcomers are answered exactly by the leader, with its topic and itself; addresses are taken exactly from trusted senders or, by an electable server, from the leader too; summaries are pushed exactly from the leader. |
| JobServer.Server.OnCommand | peerprint/server/server/server.go:195-217 | The leader serves, publishes and pushes a granted command; anyone else forwards it; each command gets exactly one answer. |
| JobServer.Server.OnPubsub | peerprint/server/server/server.go:218-229 | Sent back to the topic are the state of a granted job request and the replies to assignment and address messages, nothing else; a leader stays in office exactly under the turns `Loop` takes. |
| JobServer.Server.OnStateChange | peerprint/server/server/server.go:230-236 | The wrapper gets the whole current state. |
| JobServer.Server.OnLeaderChange | peerprint/server/server/server.go:237-257 | A server that is leader announces itself and then its state. |
| JobServer.Server.ServeCommand | peerprint/server/server/server.go:195-217 | A command off the wire takes a leader's register one value-level step; the result is published and pushed exactly when granted. |
| JobServer.Server.ServeTopic | peerprint/server/server/server.go:218-229 | So does a request from a topic, whose result is published only. |
| JobServer.Server.ServeOther | peerprint/server/server/handlers.go:31-102 | Any other message that keeps the leader in office leaves the jobs alone and sends no state. |
| JobServer.Server.Receive | peerprint/server/server/server.go:193-257 | Any turn that keeps the leader in office takes the register one value-level step if it is a job request and leaves it alone otherwise; states go to topic and wrapper exactly as said per turn. |
| JobServer.Server.Loop | peerprint/server/server/server.go:182-257 | Over any turns that keep it in office, states, notices and leadership changes among them, the leader's register is the fold of the job requests alone, and what it publishes and pushes are the states those turns send. |
| JobServer.SentInOrder | peerprint/server/server/server.go:182-257 | Those published, and those pushed, are states of the run of job requests in the order of that run, and every granted request's state is among the published ones. |
| JobServer.PresentStateSent | peerprint/server/server/server.go:195-257 | Every granted request and leadership change sends the then present state to the topic, and every granted command, leadership change and register change sends it to the wrapper. |
| JobDisplay.AcquiredIsShown | peerprint/wan/wan_queue.py:66-75 | The state after a granted acquire shows the holder for exactly an hour on the leader's clock. |
| JobDisplay.ReleasedIsShown | peerprint/wan/wan_queue.py:66-75 | The state after a granted release shows nobody, at any clock past its first hour. |
| JobDisplay.NeverAhead | peerprint/server/server/handlers.go:190-216 | If no job is filed anew under a lock more than a second ahead, no lock is ever that far ahead of the leader's clock. |
| JobDisplay.DisplayExact | peerprint/wan/wan_queue.py:66-75 | Showing a state is conservative, for every continuation without a give-up and every display time, if and only if the shown lock is dated at most one second ahead of the leader's clock. |
| JobDisplay.ReacquireOutlived | peerprint/server/server/handlers.go:190-216 | Whatever the job and however far ahead its lock beyond that, a re-acquire by its holder lets another peer in while the display still names the holder. |
| JobDisplay.NewJobShownExact | peerprint/server/server/handlers.go:190-195 | The state right after a new job is filed under a holder's lock is safe to show if and only if the request's lock is dated at most one second ahead. |
| JobDisplay.DisplayConservative | peerprint/wan/wan_queue.py:66-75 | If any state of a run, old or new, shows a job as acquired by a peer at some time, under a lock at most one second ahead, the leader refuses everyone else for an hour after it, unless the peer gave the job up. |
| JobDisplay.ListenerFollows | peerprint/server/server/handlers.go:228-236 | Whatever run, a listener's state, and every state in flight, is one the leader committed earlier, or the listener's initial one. |
| JobDisplay.ListenerMonotone | peerprint/server/server/handlers.go:228-236 | A listener's states never go backwards in the leader's history. |
| JobDisplay.CaughtUp | peerprint/server/server/handlers.go:228-236 | From the leader's first publication on, the last state on its way to a listener, or the listener's own when nothing is on its way, is the leader's present one. |
| JobDisplay.AcquireReachesListener | peerprint/wan/wan_queue.py:66-75 | End to end: once a granted acquire, with nothing handled after it, has been delivered, the listener's wrapper shows the holder for exactly the hour. |
| JobDisplay.FollowsStep | peerprint/server/server/server.go:195-229 | Each step of leader, channel and listener keeps that relation. |
| JobDisplay.ShownIsEnforced | peerprint/wan/wan_queue.py:66-75 | End to end: what a listener's wrapper shows at any step of any run, under a lock at most one second ahead, is what the leader enforces at every later step within the hour, unless the holder gave it up. |
| WanQueue.PeerPrintQueue.Update | peerprint/wan/wan_queue.py:66-88 | The cache becomes the pushed state: each job with its manifest and owner, and shown as acquired by its lock's peer exactly until an hour after the lock's date; the callback gets it twice; a peers message changes only the peers. |
| WanQueue.PeerPrintQueue.constructor | peerprint/wan/wan_queue.py:19-34 | Starts with an empty cache, not ready. |
| WanQueue.ShowAcquired | peerprint/wan/wan_queue.py:66-81 | A wrapper that gets the state after a granted acquire shows the holder for exactly an hour. |
| WanQueue.ShowReleased | peerprint/wan/wan_queue.py:66-81 | One that gets the state after a granted release shows nobody. |
| Discovery.TableExplained | peerprint/discovery.py:22-41 | For every run and any clock a host is listed exactly when it is not the node itself, has pinged, and has not lapsed since, under its last ping. |
| Discovery.PruneExact | peerprint/discovery.py:33-41 | Right after a prune a host is listed exactly when its last ping is no older than the time to live. |
| Discovery.CallbackKeepsStep | peerprint/discovery.py:27-41 | A hook called on a change of presence keeps each host's hooks alternating, beginning with added. |
| Discovery.LANPrintQueue.constructor | peerprint/discovery.py:12-20 | Starts with no hosts and no queue. |
| Discovery.LANPrintQueue.HandlePing | peerprint/discovery.py:22-31 | Lists the host under the new time, never the node itself; a new host, and no other, is announced once and ends the pause; membership stays the table. |
| Discovery.LANPrintQueue.DoPrune | peerprint/discovery.py:33-41 | Drops exactly the hosts past their time to live, with one hook each and no other; membership stays the table. |
| Discovery.LANPrintQueue.OnHostAdded | peerprint/lan_queue.py:175-178 | Adds the host to a running cluster and does nothing before there is one. |
| Discovery.LANPrintQueue.OnHostRemoved | peerprint/lan_queue.py:180-183 | Removes the host from a running cluster and does nothing before there is one. |
| Discovery.LANPrintQueue.OnStartupComplete | peerprint/lan_queue.py:188-191 | The queue starts with exactly the hosts listed by then. |
| Discovery.LANPrintQueue.Receive | peerprint/discovery.py:88-96 | The receive loop takes the turns `TurnsReached` describes, and handles their pings. |
| Discovery.LANPrintQueue.Spin | peerprint/discovery.py:72-96 | The thread makes the steps `RoundExact` describes, round by round; the queue starts once, in the first round begun more than half a period after the start; membership is the table throughout. |
| Discovery.TurnsReached | peerprint/discovery.py:88-96 | The receive loop handles exactly the pings up to and including the first turn at which the clock reaches the next broadcast or a new host turns up, in order. |
| Discovery.RoundExact | peerprint/discovery.py:74-96 | Each round is, exactly: the startup if due and not done, one prune, and the pings of the turns before the next broadcast, which is due between one and two periods after the round began or at once when a new host turns up. |
| Discovery.PingHeard | peerprint/discovery.py:86-96 | With a positive period, a ping that arrives before the next broadcast and before any new host is handled, and its host is listed at the end of the round. |
| Discovery.StartupOnce | peerprint/discovery.py:76-82 | The startup is among the steps exactly when some round has begun more than half a period after the start. |
| Discovery.SpinPrunesInOrder | peerprint/discovery.py:76-87 | Rounds on a clock that does not run backwards prune in order. |

## Left out

- Consensus: the LAN log is agreed, and the WAN register is read and written atomically; elections, failed commits, and a non-leading raft member's commit being ignored (peerprint/server/raft/raft.go:325-336) are not modelled.
- Aliasing after publication: a published state is recorded by value, while the code sends a pointer that is marshalled later.
- Consensus plumbing: opening and closing topic channels, handshakes, polling and the role signal are not modelled, and connecting to an address is assumed to succeed. The model's leader name follows a notice or an assignment, as the in-memory consensus does; in the networked one setting the leader is a no-op (peerprint/server/raft/raft.go:130-132).
- JobServer.Server.Handle: does not model a SetJobRequest without a job, or an adopted state whose map keys differ from its jobs' ids; the code assumes neither arrives.
- JobServer.Server.OnCommand: takes only the four job requests, as these are the only commands the wrapper sends that the gate knows.
- JobServer.Server.Loop: takes no turn of the poller, and no state of the server's own coming back, which the transport drops (peerprint/server/topic_receiver/topic_receiver.go:100-104).
- OrderedDict.CPOrderedReplDict.OrderedItems: takes only states in which the walk ends; `FrontThenLoop` reaches one in which the code's loop does not.
- Asynchronous tryAcquire, which differs from the synchronous one only in calling back.
- Peer state on the LAN (`syncPeer`, `getPeers`) and its wall-clock pruning.
- The namespace filter on discovery packets, sockets, threads, weak references and logging; a turn of the receive loop carries the address of an accepted packet.
- Discovery.RoundExact: is about clocks that do not read below zero, since a new host sets the next broadcast to time zero.
- Discovery.LANPrintQueue.Spin: a round whose turns run out ends early, which stands for the node being stopped or for turns without a packet.
- A lock table that changes while `getPeerLocks` walks it, which Python answers with an exception.
- Generated protobuf code, key and registry files, process launching, the shell, file sharing and the poller's estimate.
