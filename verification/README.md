# Verification of Nowra's process manager and utility layer

This project models the stateful parts of Nowra, a small service framework in the
style of Postfix, and proves what they keep and compute.

- `Master`, `Services`: the process manager's state and every event handler as a
  function on values, and the invariant that all of them keep. `MasterServer` has the
  same handlers as methods that update service and child structures in place; each is
  shown to compute the function.
- `Protocol`: the manager together with its children as a distributed state machine.
  Children serve connections and report down one status pipe per service; the manager
  collects events in batches and dispatches them one by one. `Coverage` and
  `StatusView` prove who watches the listen socket, and how the manager's picture of
  its children relates to the truth, over whole runs; `Limits` does the same for the
  limits on the number of children, and `Throttling` for who throttles a service and for
  how long. `Incidents` holds runs into the states that these
  theorems warn of. `Links` connects the manager's descriptors and child table with the
  registration table and the hash table.
- `ThreadPool`, `JobQueue`: the thread pool as a concurrent step system with one
  program counter per thread, and the queue it works on, on the intrusive ring.
  `PoolProgress` proves that it gets on: no deadlock, a bounded amount of work between
  submissions, an end to thpool_wait and to thpool_destroy.
- `Timers`, `TimerRuns`, `TimerFates`, `TimerQueue`, `Rings`: the timer queue as a stable
  priority queue, its runs with callbacks that call back into it, what becomes of each
  request over a run, and the code on the circular doubly linked list.
- `Registry`: the read/write registration table beside the kernel's epoll set.
- `BinHash`: the hash table with doubly linked chains and rehashing in place: a stack of
  entries for each key, and a finite map while no key has two.
- `Config`: the mark, update and sweep of a configuration reload over the linked list
  of services. `Refresh`: what the calls it makes do to the manager's state.
- `VString`, `StringOp`, `Tokenizer`: the growing buffer, the strict integer parser,
  and the in-place tokenizer with the argument vector.
- `Options`, `Seqs`: shared definitions.

`dafny verify dfyconfig.toml` checks everything.

## What is false of the code, and what holds instead

- **A failed fork can leave a service deaf.** `master_throttle` leaves LISTEN set, the
  next connection event takes the socket off the registration without clearing LISTEN
  (src/master/master_avail.c:30-33), and the expiring timer then sees LISTEN set and
  does nothing. `Incidents.Deafness` is a run into that state: no child, no timer,
  nobody watching, a connection wanted. `Coverage.RunsCoveredExact` says exactly when
  a service goes deaf, in any run: every unthrottled service below its limit is watched
  or has an available child, in every state, if and only if no timer expiry finds its
  service with room for a child, LISTEN set and the socket off the registration, no
  reload makes room for a service that needs a child and does not have LISTEN set, and
  no service is started on a socket beyond the registration table.
  Two weaker failings have conditions of their own: LISTEN tells the truth if and only
  if no connection event finds its service throttled with LISTEN set and no service is
  started beyond the table (`Coverage.RunsAttentiveExact`), and flag, registration and
  counters agree if and only if no fork fails, no reload makes or takes the room LISTEN
  stands for, and no service is started beyond the table (`Coverage.RunsTrackingExact`).
- **Two events in one batch can end the manager.** The dispatch loop of `event_wait`
  does not look at the registration again (src/util/events.c:401-412). A status event
  that makes a child available turns a connection event behind it into a panic of
  `master_spawn`; `Incidents.StaleBatch` is such a run. `Protocol.RunsPanicExact`: what
  can follow in a run ends the manager if and only if it dispatches such a stale
  connection event, or a misrouted message.
- **A wrong pid does more than amuse.** src/master/master_proto.c:22-27 says that a bad
  pid has only amusement value, but a message that names a child of another service
  meets a panic (src/master/master_status.c:75-76). `Master.StatusMessageKeeps`: any
  message ends the manager if and only if it does that; `Incidents.MisroutedMessage` is
  such a run.
- **A pool of two or more workers can pull from an empty queue.** The first of two
  workers past the wait posts the semaphore again, the second empties the queue, and
  the next one detaches the list head. `ThreadPool.FaultExact`: the fault is reachable
  if and only if there are at least two workers. What is proved for any number of
  workers is proved of every run up to and including the step that faults.
- **A reload that changes `max_proc` does not decide again who listens.** Raising the
  limit can leave a service deaf (`Incidents.ReloadDeafness`, and the condition above);
  lowering it can end the manager at a connection, even one for a registered socket:
  `Limits.WatchedPanicExact` says that this happens, in any run, if and only if the
  service is unthrottled and its limit used up (`Incidents.ReloadPanic`). In all states
  of a run the limits are respected and LISTEN suits them if and only if all its reloads
  fit (`Limits.RunsFittedExact`), a condition on the new limit, the counters and LISTEN
  (`Services.ReloadFits`). Everything else that is proved of runs is proved of runs with
  any reloads.
- **The view of the children can go wrong.** `StatusView.RunsViewExact`: the recorded
  status, corrected by the unread messages, is what the children announced, in every
  state of a run, if and only if no notification is lost, no child writes a falsehood,
  no reload throws away news with the old pipe, and no pid is given out again about
  which a pipe holds old news. `Incidents.LostNotification` and
  `Incidents.ReloadDropsNews` are runs into wrong views.
- **Enabling a descriptor with an empty mask** enters it into the kernel's set but not
  into the table, so that the next enable is refused (`Registry.EmptyMask`).
  `Registry.RunsMirrorExact`: over any sequence of calls the two agree in every state if
  and only if no enable leaves a mask empty.
- **Descriptors beyond the registration table** are refused by event_enable_rw
  (src/util/events.c:127-131), whose result neither master_avail_listen nor
  master_status_init looks at. A service started on such a socket has LISTEN set and
  nobody watches: that is one of the steps that `Coverage.RunsCoveredExact` names, and
  `Incidents.BeyondTable` is the run. A status pipe beyond the table is never read:
  `Coverage.RunsReadExact` says that, in any run, unread messages can be collected if
  and only if their pipe is below the size of the table.
- **Growing a hash table changes which entry shadows the other** when a key was entered
  twice, since the chains come out reversed (src/util/binhash.c:84-89).
  `BinHash.OlderComesUp` runs into it; `BinHash.GrowKeepsTopExact`: what is found stays
  if and only if the oldest and the newest entry of the key are alike. The child table
  never enters a key twice (`Links.EnterLinks`).
- **The hash accumulator does not stay within 28 bits** where unsigned long has 64: the
  fold clears bits 28 to 31 only (src/util/binhash.c:28). `BinHash.HashEscapes` is a key
  that leaves them; `BinHash.RoundBelowExact` says exactly when that happens.
- **Splitting an empty string ends in a panic.** mystrdup returns a shared constant for
  it (src/util/mymalloc.c:103-106), which myfree does not accept
  (src/util/argv.c:93 and 112). `Tokenizer.Split` and `Tokenizer.SplitAppend` succeed if
  and only if the string is not empty; `Tokenizer.SplitEmpty` is the input.

## Assumptions

- `msg_panic` and `msg_fatal` end the process. The handlers return `Panic` (the
  methods return false) there, and a run has no further state.
- fork, waitpid, pipe, the clock and what children do are parameters or steps of the
  environment. The clock does not run backwards. fork does not return the pid of a child
  that has not been reaped. New descriptors are ones that no service holds; the new
  pipe of a reload may have the number of the old one, which is closed before.
- A status message is written and read as a whole, and epoll_wait reports a status pipe
  only when there is one to read.
- `epoll_ctl` fails only for the two reasons `Registry.CtlOk` models.
- Every service listens on a network socket, as `get_master_ent` sets it up.
- Services are started, reloaded and stopped outside the dispatch loop. A child may be
  reaped and a timer may expire at any time, also between two events of a batch, which
  is more than the code does. `master_reap_child`, `master_refresh` and
  `master_stop_service` are steps although no main program here calls all of them.
- In `string2ll` the constant at src/util/stringop.c:181 is 2^63.
- Event masks are made of EVENT_READ and EVENT_WRITE; nothing in the sources passes
  EVENT_XCPT or EVENT_TIME to the two registration calls. Each bit is a field, as are
  the flag bits of a service.
- Limits, wakeup times and delays in the configuration are not negative
  (src/master/master_ent.c:154-155).
- Sizes stay below 2^31, so that the conversions between int and unsigned lose nothing.

`Master` keeps its timers, its descriptors and its child table as values. The timers are
the state that `TimerQueue` refines; `Links` shows that the calls on the registration
table and on the hash table do to them what the functions of `Master` do to the values.
Pids are keys by their bytes; `Links` asks only that the pids in the table, and the one
of the call, differ in their bytes when they differ.
`ThreadPool` takes a push or pull as one step (a pull that posts, as two);
`JobQueue.JobQueue.Push` and `JobQueue.JobQueue.Pull` state that the code on the ring
does what these steps do.

## Model

| member | source | states |
|---|---|---|
| Protocol.RunsAreSafe | src/master/master_spawn.c:85-157 | in every state of every run, with forks failing or not and with any reloads: total_proc and avail_proc are the table's counts, registered implies LISTEN implies no available child, throttled exactly when one timer is queued, every event still to dispatch belongs to a service that exists |
| Protocol.RunsPanicExact | src/master/master_spawn.c:100-108 | in any run, what can follow ends the manager iff it dispatches a connection event beyond maxfd, or one for an unthrottled service with an available child or its limit used up, or reads a message about a child of another service |
| Limits.RunsFittedExact | src/master/master_conf.c:108-122 | in all states of a run no service exceeds its limit and LISTEN is set where a child is wanted and only where there is room for one, iff all reloads fit |
| Limits.WatchedPanicExact | src/master/master_conf.c:116-120 | in any run, a connection event for a registered socket ends the manager iff the service is unthrottled and its limit used up |
| Limits.RunsNeverPanic | src/master/master_avail.c:114-142 | while reloads fit, nothing ends the manager that dispatches connection events for registered sockets and reads messages from the named children's own service |
| Limits.FittedUpTo | src/master/master_spawn.c:100-108 | while reloads fit, the limits are respected |
| Limits.SameLimitFits | src/master/master_conf.c:116-120 | a reload that keeps max_proc fits |
| Throttling.RunsThrottledExact | src/master/master_spawn.c:65-81 | over any run: a service is throttled iff a failed fork, the beginning of a stop, or the reaping of an unused child that failed has throttled it, and neither its timer nor the end of its stop has released it since |
| Throttling.RunsUntilExact | src/master/master_spawn.c:74-80 | over any run: a service is to be unthrottled at a time iff the step that throttled it was taken the service's delay before that time, and nothing has released it since |
| Throttling.RunsHoldForDelay | src/master/master_spawn.c:33-61 | over any run: no timer releases a service before the delay it had when it was throttled is over, whatever reloads have made of the delay |
| Throttling.RunsUseCount | src/master/master_status.c:84-90 | over any run: the use count of a recorded child is the number of times it has reported, since its fork, that it is available again |
| Throttling.StepFollows | src/master/master_spawn.c:33-81 | for one step of any kind: which step throttles which service, until when, and which releases it |
| Protocol.StepExact | src/util/events.c:401-412 | the same for one step of any kind, and that the invariant is kept otherwise |
| Protocol.RunsStopCleanly | src/master/master_service.c:41-50 | whenever a stop ends in a run, no child entry, no timer and no registered descriptor refers to the service, which is gone afterwards, and the rest keeps the invariant |
| Protocol.CollectStep | src/util/events.c:379-384 | a batch holds only descriptors of services that exist |
| Protocol.ConnectStep | src/master/master_avail.c:23-39 | a connection event, stale or not, with any outcome of fork: fatal exactly as stated, and otherwise the invariant of the whole system is kept |
| Protocol.WriteStep | src/master/master_proto.c:18-42 | announcements, written or lost, and arbitrary messages keep it |
| Protocol.DeliverStep | src/master/master_status.c:25-100 | reading the oldest message, whatever it says: fatal exactly when misrouted, and otherwise the invariant is kept |
| Protocol.DeliverResult | src/master/master_status.c:57-100 | what the table holds afterwards |
| Protocol.ReapStep | src/master/master_spawn.c:204-231 | reaping any dead child keeps the invariant |
| Protocol.TimerStep | src/master/master_spawn.c:33-61 | the expiry of the earliest timer keeps it |
| Protocol.StartStep | src/master/master_service.c:25-37 | starting a service keeps it |
| Protocol.ReloadStep | src/master/master_service.c:54-65 | a reload with a new pipe and any limit keeps the invariant |
| Protocol.BeginStopStep | src/master/master_service.c:41-50 | closing the pipe and throttling keeps it, with children still alive |
| Protocol.EndStopStep | src/master/master_avail.c:88-98 | freeing the service once its children are gone keeps it |
| Coverage.RunsCoveredExact | src/master/master_avail.c:43-84 | over any run: every unthrottled service below its limit is watched or has an available child in all states iff no timer expiry finds room, LISTEN set and nobody watching, no reload makes room for an unthrottled service without available child and with LISTEN clear, and no service is started on a socket beyond the registration table |
| Coverage.RunsTrackingExact | src/master/master_spawn.c:115-120 | over any run: registered iff LISTEN iff unthrottled, no available child and limit not reached, for every service not being stopped, in all states iff no fork fails, no reload makes or takes the room that LISTEN stands for, and no service is started beyond the table |
| Coverage.RunsAttentiveExact | src/master/master_avail.c:30-33 | over any run: LISTEN agrees with the registration in all states iff no connection event finds its service throttled with LISTEN set and no service is started beyond the table |
| Coverage.RunsReadExact | src/util/events.c:127-131 | over any run: a status pipe with unread messages can be collected iff it is below the size of the table; beyond it no message is ever delivered |
| Coverage.RunsAreCovered | src/master/master_avail.c:43-84 | as long as none of these steps has been taken, all three hold of every service that is not being stopped, and it is watched or has an available child |
| Coverage.NoFailureNoDeafness | src/master/master_spawn.c:65-81 | until then no connection is spurned and no step deafens a service |
| Coverage.StepExact | src/master/master_avail.c:23-84 | the four equivalences, limits included, for one step of any kind, and that what keeps each property survives every other step |
| Coverage.HeardIsCovered | src/master/master_avail.c:57-68 | a service that is throttled, or whose LISTEN is true and set when a child is wanted, is covered; one without available child is covered only if watched or not in want of one |
| Coverage.ConnectionDecides | src/master/master_avail.c:23-39 | flag, throttling and registration after a connection event |
| Coverage.MessageDecides | src/master/master_status.c:84-100 | a message leaves LISTEN as the counters ask, or touches nothing that bears on it |
| Coverage.DeletionDecides | src/master/master_spawn.c:170-183 | after a deletion LISTEN is as the counters ask, or unchanged where nothing is wanted and, if LISTEN is set, the limit still exceeded |
| Coverage.ReapDecides | src/master/master_spawn.c:161-232 | a reap keeps each of the properties of the service it concerns, in whichever branch master_delete_child ended |
| Coverage.TimerDecides | src/master/master_spawn.c:33-61 | an expiry unthrottles and leaves flag and registration in agreement iff it did not find room, LISTEN set and nobody watching |
| Coverage.StartBeyond | src/master/master_avail.c:70-76 | a service started beyond the table has LISTEN set, is not watched and needs a child, from its start |
| StatusView.RunsViewExact | src/master/single_server.c:43-75 | over any run: replaying the unread messages over the recorded status gives each live child's announced status in all states iff no step loses a notification, tells a falsehood, drops news with a pipe, or reuses a pid with old news |
| StatusView.StepViewExact | src/master/master_status.c:46-100 | the same for one step of any kind |
| StatusView.DrainedCountIsTrue | src/master/master_status.c:84-100 | with the pipe drained and the dead reaped, avail_proc is the number of children that wait plus those that accepted a connection and have not said so, and the others serve |
| StatusView.ReplayAppend | src/master/master_proto.c:18-42 | the last message about a child decides its replayed status, unless its code is unknown |
| StatusView.ConnectView | src/master/master_spawn.c:137-155 | a new child is seen rightly iff the pipe holds no old news about its pid |
| StatusView.ScribbleView | src/master/master_status.c:61-67 | an arbitrary message leaves the view right iff it is not false of the live child it names |
| StatusView.ReloadView | src/master/master_service.c:54-65 | a new pipe leaves the view right iff the old one held no message that would change what is recorded about a live child |
| Incidents.Deafness | src/master/master_spawn.c:74-80 | a run with a failed fork, a spurned connection and an expiry: LISTEN set, nobody watching, no child, no timer |
| Incidents.StaleBatch | src/util/events.c:401-412 | a run whose batch holds a status event and a connection event, and ends the manager |
| Incidents.MisroutedMessage | src/master/master_status.c:75-76 | a run in which a child names another service's child, which ends the manager |
| Incidents.ReloadPanic | src/master/master_conf.c:116-120 | a run whose reload lowers the limit; the next connection, on a registered socket, ends the manager |
| Incidents.ReloadDeafness | src/master/master_conf.c:116-120 | a run whose reload raises the limit; nobody watches, and nothing is queued to change it |
| Incidents.ReloadDropsNews | src/master/master_service.c:54-65 | a run whose reload changes no setting and makes the view wrong |
| Incidents.LostNotification | src/master/single_server.c:56-71 | a run in which a notification is not written, and the view is wrong |
| Incidents.BeyondTable | src/master/master_avail.c:70-76 | a run that starts a service on the first descriptor beyond the table: LISTEN set, nobody watching |
| Links.EnableLinks | src/util/events.c:115-170 | enabling any descriptor for reading does to the table what Master.EnableRead does to the manager's descriptors: nothing, for one beyond the table |
| Links.DisableLinks | src/util/events.c:174-224 | disabling it does to the table what Master.DisableRead does |
| Links.MaxFdLinks | src/util/events.c:404-406 | the dispatch loop's test against maxfd, in terms of the manager's descriptors |
| Links.FindLinks | src/util/binhash.c:115-126 | the stack of a pid's bytes holds what the child table holds for the pid, or nothing |
| Links.EnterLinks | src/util/binhash.c:95-111 | pushing a child that is not in the table, after turning all stacks over or not, is entering it in the child table |
| Links.DeleteLinks | src/util/binhash.c:147-174 | popping the stack of its bytes is deleting it there, and that stack is empty exactly when the child is unknown |
| Links.FindChild | src/util/binhash.c:115-126 | binhash_find itself answers what the child table holds |
| Links.EnterChild | src/util/binhash.c:95-111 | binhash_enter itself, of a child not in the table, whether the table grows or not |
| Links.DeleteChild | src/util/binhash.c:147-174 | binhash_delete itself, on a table that holds the children, holds them without this one afterwards and reports unknown ones |
| Master.ConnectionKeeps | src/master/master_avail.c:23-39 | a connection event, watched for or stale, panics iff a child is idle or the limit used up; otherwise it keeps the invariant, touches that service only, and adds exactly the forked child |
| Master.WatchedNeverPanics | src/master/master_spawn.c:100-108 | while the socket is registered and LISTEN suits the limit none of the three panic tests fires |
| Master.SpawnKeeps | src/master/master_spawn.c:85-157 | the parent's side of master_spawn passes its three panic tests and keeps the invariant |
| Master.SpawnResult | src/master/master_spawn.c:137-155 | entering, counting and master_avail_more amount to one new idle child followed by one decision to listen |
| Master.ThrottleKeeps | src/master/master_spawn.c:65-81 | throttling keeps the invariant, in particular flag iff timer, and leaves other services alone |
| Master.UnthrottleKeeps | src/master/master_spawn.c:46-61 | unthrottling keeps it, clears the flag, and does not panic |
| Master.TimerEventKeeps | src/util/events.c:391-399 | the first timer belongs to a service that exists; unthrottling after the entry left the queue keeps the invariant |
| Master.ListenSettles | src/master/master_avail.c:43-84 | master_avail_listen makes LISTEN what is wanted and changes nothing but the registration of that socket |
| Master.StatusMessageKeeps | src/master/master_status.c:46-100 | any message panics iff it names a child of another service; otherwise it keeps the invariant and changes exactly the named child's status and use count, if at all |
| Master.MoveKeeps | src/master/master_avail.c:102-143 | master_avail_more and less keep counters, table and LISTEN in agreement |
| Master.DeleteChildKeeps | src/master/master_spawn.c:161-186 | removing a child keeps the invariant |
| Master.DeleteChildResult | src/master/master_spawn.c:170-183 | every branch removes one child, and decides again who listens exactly if the child was idle or its going leaves room and no idle one |
| Master.DeleteChildSettles | src/master/master_spawn.c:170-183 | while LISTEN suits the limit, all branches do what one decision on the reduced counts would do |
| Master.ReapKeeps | src/master/master_spawn.c:204-231 | reaping, throttling included, does not panic, keeps the invariant, and removes exactly that child |
| Master.ReapThrottlesExact | src/master/master_spawn.c:224-229 | a reap leaves the service throttled iff it was, or the child failed before its first use; then the timer for the service's delay from now is queued, and otherwise no timer changes |
| Master.ConnectionThrottlesExact | src/master/master_spawn.c:115-120 | a connection event leaves the service throttled iff it was, or the fork failed; the same for its timer |
| Master.BackOffKeeps | src/master/master_spawn.c:224-229 | throttling after a bad start keeps the invariant, table and registrations |
| Master.OthersKeep | src/master/master_spawn.c:161-186 | services whose handler did not run keep their invariant |
| Master.InvFromTouched | src/master/master_spawn.c:161-186 | the whole invariant follows from that of the one service touched |
| Services.StartKeeps | src/master/master_service.c:25-37 | a started service has LISTEN set, its socket and its pipe are registered as far as they are below the size of the table, and nothing changes for the others |
| Services.StopBeginKeeps | src/master/master_service.c:41-50 | the first half of a stop closes the pipe, throttles, keeps the invariant |
| Services.StopEndClean | src/master/master_avail.c:88-98 | the second half leaves no reference, and freeing the service keeps the invariant |
| Services.StopEndShape | src/master/master_avail.c:88-98 | the service is left unthrottled, not listening, with its socket closed |
| Services.StatusRoundTrip | src/master/master_status.c:104-154 | opening a status pipe is refused exactly while one is open, and closing it brings the state before back |
| Services.ReapAllKeeps | src/master/master_spawn.c:251-254 | the wait loop may reap children of any service and keeps the invariant of all |
| Services.LoopEndsExact | src/master/master_spawn.c:251-254 | the wait loop ends iff all children of the service have been reaped, whatever others were reaped with them |
| Services.StopLeavesNoReference | src/master/master_service.c:41-50 | the whole of master_stop_service, for any deaths that include all children of the service, ends and leaves nothing that refers to the service |
| Services.ConnectionAttentiveExact | src/master/master_avail.c:30-33 | after a connection event flag and registration agree iff: for a throttled service, LISTEN is clear; for any other, a child was forked or they agreed before |
| Services.ReconfigureExact | src/master/master_conf.c:108-122 | any reload keeps the invariant; LISTEN still suits the limit iff the new limit admits the children there are, keeps room where LISTEN is set and makes no room where it is clear |
| Services.ReloadPanicExact | src/master/master_conf.c:116-120 | after a reload the next connection on a watched service panics iff the new limit is used up |
| MasterServer.Server.AvailListen | src/master/master_avail.c:43-84 | the method on the structures does what Master.AvailListen does to the value |
| MasterServer.Server.AvailMore | src/master/master_avail.c:102-123 | does in place what Master.AvailMore does to the value, panic included |
| MasterServer.Server.AvailLess | src/master/master_avail.c:127-143 | does in place what Master.AvailLess does to the value, panic included |
| MasterServer.Server.AvailEvent | src/master/master_avail.c:23-39 | does in place what Master.ConnectionEvent does to the value for each outcome of fork |
| MasterServer.Server.Throttle | src/master/master_spawn.c:65-81 | does in place what Master.Throttle does to the value |
| MasterServer.Server.Unthrottle | src/master/master_spawn.c:46-61 | does in place what Master.Unthrottle does to the value |
| MasterServer.Server.TimerEvent | src/util/events.c:391-399 | does in place what Master.TimerEvent does to the value, with the entry taken off before the callback |
| MasterServer.Server.Spawn | src/master/master_spawn.c:85-157 | does in place what Master.Spawn does to the value, panics included |
| MasterServer.Server.Adopt | src/master/master_spawn.c:137-155 | does in place what Master.Adopt does to the value |
| MasterServer.Server.DeleteChild | src/master/master_spawn.c:161-186 | does in place what Master.DeleteChild does to the value |
| MasterServer.Server.ReapOne | src/master/master_spawn.c:204-231 | does in place what Master.Reap does to the value; no service and no other child is lost |
| MasterServer.Server.ReapChild | src/master/master_spawn.c:190-232 | the loop over waitpid does what reaping the deaths one after the other does |
| MasterServer.Server.KillChildren | src/master/master_spawn.c:244-249 | exactly the children of the service are sent the signal |
| MasterServer.Server.AwaitChildren | src/master/master_spawn.c:251-254 | what the calls made have reaped; a call is made only while a child is counted, and the loop ends at the first moment at which none is |
| MasterServer.Server.StatusEvent | src/master/master_status.c:46-100 | does in place what Master.StatusMessage does to the value, panic included |
| MasterServer.Server.StatusInit | src/master/master_status.c:104-129 | does in place what Master.StatusInit does to the value, panic included |
| MasterServer.Server.StatusCleanup | src/master/master_status.c:133-154 | does in place what Master.StatusCleanup does to the value, panic included |
| MasterServer.Server.StartService | src/master/master_service.c:25-37 | does in place what Master.StartService does to the value |
| MasterServer.Server.StopService | src/master/master_service.c:41-50 | does in place what Services.StopService does to the value, for the deaths that the calls of the wait loop saw, of which no shorter beginning would have ended it; while that loop goes on, what Services.StopWaiting does |
| MasterServer.Server.StopEnd | src/master/master_avail.c:88-98 | does in place what Master.StopEnd does to the value, with the listen socket closed |
| MasterServer.Server.Reconfigure | src/master/master_conf.c:108-122 | does in place what Master.Reconfigure does to the value |
| ThreadPool.RunsAreSound | src/util/thpool.c:217-262 | for any number of workers, up to a fault: counters count threads, pulled followed by queued jobs are the submissions, each pulled job is finished or held by one worker, and no wakeup is lost |
| ThreadPool.PoolStep | src/util/thpool.c:151-196 | that invariant is inductive over every atomic step |
| ThreadPool.PulledInOrder | src/util/thpool.c:151-172 | jobs are pulled in submission order, at most once, and none is lost |
| ThreadPool.WakeupStep | src/util/thpool.c:89-115 | a queued job keeps a posted semaphore, a worker on its way, or somebody about to post |
| ThreadPool.RunsLoseNobody | src/util/thpool.c:227-262 | in any run, no worker leaves while the pool is kept alive |
| ThreadPool.WaitIsSound | src/util/thpool.c:391-409 | for any number of workers and of callers, whatever is submitted meanwhile: when thpool_wait returns, everything submitted before the call has finished, unless the pool was destroyed meanwhile; then the rest was thrown away |
| ThreadPool.QuietMeansFinished | src/util/thpool.c:233-254 | an empty queue and nobody working mean that every job has finished |
| ThreadPool.WorkingFirstIsUnsound | src/util/thpool.c:233-254 | reading the number of workers before the length would not do: a reachable counterexample |
| ThreadPool.SingleWorkerNeverFaults | src/util/thpool.c:227-255 | with one worker the queue covers the semaphore and the worker on its way, in every interleaving |
| ThreadPool.FaultExact | src/util/thpool.c:151-160 | a pull from an empty queue is reachable iff there are two or more workers |
| ThreadPool.SurplusToken | src/util/thpool.c:166-169 | two workers past the wait leave the semaphore posted over an empty queue |
| ThreadPool.FaultReachable | src/util/thpool.c:153-160 | an interleaving that detaches the list head |
| PoolProgress.WaitEnds | src/util/thpool.c:369-409 | from every state of every run that is kept alive, workers and posts going on lead to the return of any caller of thpool_wait, with everything submitted finished, or to a fault |
| PoolProgress.SecondReadReturns | src/util/thpool.c:391-409 | in any run, a caller has returned after its second read at the latest, if at these reads no job is queued and nobody works |
| PoolProgress.CalmReturns | src/util/thpool.c:391-409 | with no job queued and nobody working, one or two reads are possible and make the caller return |
| PoolProgress.RunsTire | src/util/thpool.c:217-262 | in any run from any of its states, while nothing is submitted, workers and posts take no more steps than the work in sight: program counters, semaphore and queue |
| PoolProgress.BurdenAtMost | src/util/thpool.c:217-262 | which is bounded by the numbers of workers and of queued jobs |
| PoolProgress.RestIsQuiet | src/util/thpool.c:89-115 | in a pool that is kept alive and in which nobody can go on, nothing is queued, every worker waits at the semaphore, and every job has finished |
| PoolProgress.RunsGoOn | src/util/thpool.c:89-115 | in any run of a pool with workers, kept alive and up to a fault, some thread can go on as long as a job is queued |
| PoolProgress.DestroyEnds | src/util/thpool.c:412-450 | from every state of every run, the shutdown, workers going on and posts of thpool_destroy lead to a destroyed pool: every worker gone, queue empty, semaphore reset, every job finished or thrown away; or to a fault |
| PoolProgress.RunsWindDown | src/util/thpool.c:227-262 | in any run, workers take at most seven steps each after a shutdown, however many jobs are queued |
| PoolProgress.ShutdownStep | src/util/thpool.c:227-262 | after a shutdown every step of a worker takes it closer to its end, and no other step takes it back |
| PoolProgress.NextToLeave | src/util/thpool.c:417-437 | until all workers have left, one of them can go on, if need be after a post of thpool_destroy |
| PoolProgress.RunsDestroyLast | src/util/thpool.c:434-440 | in any run, a pool is destroyed only when all its workers have left |
| JobQueue.JobQueue.Push | src/util/thpool.c:187-196 | the job goes last on the ring and the semaphore is posted, as in the pool's step |
| JobQueue.JobQueue.Pull | src/util/thpool.c:151-172 | the oldest job leaves the ring, as in the pool's steps; an empty queue is destroyed |
| JobQueue.JobQueue.Clear | src/util/thpool.c:175-184 | all jobs leave and the semaphore is reset |
| Timers.RequestExact | src/util/events.c:240-306 | a request keeps the queue sorted, equal deadlines in request order, one entry per callback and context; asking again moves the entry |
| Timers.CancelExact | src/util/events.c:310-341 | a cancel removes exactly that entry |
| Timers.RemoveExact | src/util/events.c:326-337 | taking a key out drops the one entry that has it and keeps the order |
| Timers.InsertOrdered | src/util/events.c:298-303 | insertion in front of the first later deadline keeps the order stable |
| Timers.OrderedUnique | src/util/events.c:240-306 | order and membership leave only one queue possible |
| Timers.SelectDelay | src/util/events.c:366-375 | event_wait sleeps past no deadline nor the caller's limit, and no less than one of them allows |
| Timers.TimeLeftExact | src/util/events.c:326-341 | a cancel returns -1 iff the key has no request, and otherwise what is left until its deadline, or 0 once that has passed |
| Timers.RequestedTimeLeft | src/util/events.c:240-306 | a request just made has all of its delay left, and one made before has lost the time that has passed on the clock that the latest request has read |
| TimerRuns.RunsAreSound | src/util/events.c:391-399 | over any run with callbacks that request and cancel: the queue is sorted with one entry per key, every request is consumed exactly once, none fires early, deadlines fire in order, the entry being fired is never queued |
| TimerRuns.ConsumedAtMostOnce | src/util/events.c:391-399 | a consumed request appears once in the history and is not queued |
| TimerRuns.ConsumedStep | src/util/events.c:240-341 | each move conserves queued plus consumed requests |
| TimerRuns.FiredStep | src/util/events.c:391-399 | each move keeps fired deadlines in order and in the past |
| TimerRuns.DetachedStep | src/util/events.c:391-399 | no move puts the entry being fired back into the queue |
| TimerRuns.LoopIsRun | src/util/events.c:391-399 | every execution of the firing loop, whatever the callbacks do, is a stretch of such a run |
| TimerRuns.CallsAreMoves | src/util/events.c:240-341 | what a callback does is a sequence of moves |
| TimerFates.RunsPendingExact | src/util/events.c:240-341 | in every state of every run the queue holds exactly the last request for each key, with its deadline, unless it has been cancelled or taken off to fire since |
| TimerFates.FateExact | src/util/events.c:262-341 | each move consumes exactly the entry that it resets, cancels or fires, and says which |
| TimerFates.ExpiredCanFire | src/util/events.c:389-399 | once the clock has reached the first deadline that entry can be fired, at the time the clock shows |
| TimerFates.LoopFiresDue | src/util/events.c:391-399 | with callbacks that leave the queue alone, the firing loop fires exactly the entries that are due, in the order of the queue |
| TimerFates.DueExact | src/util/events.c:391-399 | these are the entries whose deadline the clock has reached |
| TimerQueue.TimerQueue.constructor | src/util/events.c:228-236 | an empty well-formed ring |
| TimerQueue.TimerQueue.FindNode | src/util/events.c:267-281 | the search over the ring finds the entry of the key, or the head |
| TimerQueue.TimerQueue.FindSlot | src/util/events.c:298-303 | the search finds the first entry due strictly later, or the head |
| TimerQueue.TimerQueue.RequestTimer | src/util/events.c:240-306 | the code on the ring does what Timers.Request does; no freed node is linked |
| TimerQueue.TimerQueue.CancelTimer | src/util/events.c:310-341 | the code on the ring does what Timers.Cancel does, returns what Timers.TimeLeft says, and frees exactly the removed node |
| TimerQueue.TimerQueue.RunCallback | src/util/events.c:391-399 | a callback may request or cancel its own key and still neither frees nor links the detached node |
| TimerQueue.TimerQueue.FireFirst | src/util/events.c:391-399 | one firing frees its node once, after the callback, and the node is off the ring |
| TimerQueue.TimerQueue.FireDue | src/util/events.c:391-399 | after any number of rounds the firing loop has done what TimerRuns.Loop does, and whether it has ended |
| Rings.Init | src/util/ring.c:15-18 | a ring of one |
| Rings.Append | src/util/ring.c:22-28 | the ring with the entry behind the given node, linked both ways |
| Rings.Prepend | src/util/ring.c:32-38 | the ring with the entry in front of the given node |
| Rings.Detach | src/util/ring.c:42-51 | the ring without the entry, whose pointers are null |
| Rings.SplicedIsRing | src/util/ring.c:22-38 | the four assignments of an insertion make one ring of the longer list |
| Rings.ClosedIsRing | src/util/ring.c:42-51 | the two assignments of a removal make one ring of the shorter list |
| Registry.RunsMirrorExact | src/util/events.c:115-224 | over any sequence of enables and disables, the table agrees with the kernel's set in all states iff no enable leaves a mask empty |
| Registry.RunsAccepted | src/util/events.c:115-224 | until then, no call meets EEXIST or ENOENT, and maxfd is the highest registered descriptor |
| Registry.ApplyMirrorsExact | src/util/events.c:115-224 | an agreeing table gets no call refused, and goes on to agree iff the call is not an enable that leaves the mask empty |
| Registry.ApplyToppedExact | src/util/events.c:165-167 | maxfd stays the highest registered descriptor iff no enable leaves the mask empty of a descriptor above it |
| Registry.RunsDecideExact | src/util/events.c:115-224 | over any sequence of calls that leaves no mask empty: each way of each descriptor is registered, with its callback, exactly as the last call that names it says, and the context is that of the last enable |
| Registry.RefusedOnce | src/util/events.c:140-156 | a refused enable changes the mask only, so that the same call is accepted when it is repeated |
| Registry.TopIsHighest | src/util/events.c:216-222 | the downward search ends at the highest registered descriptor, or at -1 |
| Registry.EmptyMask | src/util/events.c:140-156 | an enable with an empty mask: the kernel has an entry the table does not show, and the next enable is refused |
| Registry.EventLoop.EnableRw | src/util/events.c:115-170 | the masks, callbacks, kernel entries and maxfd of the specification, also when epoll_ctl refuses, with the result that says so |
| Registry.EventLoop.DisableRw | src/util/events.c:174-224 | the same agreement with the specification for a disable |
| Registry.EventLoop.SearchDown | src/util/events.c:216-222 | the loop computes the highest registered descriptor below the old maxfd |
| BinHash.Table.constructor | src/util/binhash.c:62-70 | an empty table |
| BinHash.ComputeHash | src/util/binhash.c:16-33 | the loop computes the fold of the hash round over the key, reduced to a bucket |
| BinHash.ShortHash | src/util/binhash.c:16-33 | the hash of up to six bytes below 128 is their sum as digits of weight 16, reduced to a bucket |
| BinHash.RoundFolds | src/util/binhash.c:26-31 | a round, with the byte as a signed char, clears bits 28 to 31 after folding them into bits 4 to 7, and leaves all other bits |
| BinHash.RoundBelowExact | src/util/binhash.c:26-31 | for a byte below 128, an accumulator of 28 bits stays one iff the sum does not reach 2^32 |
| BinHash.HashEscapes | src/util/binhash.c:26-31 | eight bytes below 128 that bring it to 2^32 |
| BinHash.Table.Enter | src/util/binhash.c:95-111 | for any key: the new entry goes on top of the key's stack, after all stacks were turned over if the table had to grow; chains stay linked both ways in the right bucket, used is the sum of chain lengths and at most size |
| BinHash.Table.Find | src/util/binhash.c:115-126 | the value on top of the key's stack, or none when it is empty |
| BinHash.Table.Locate | src/util/binhash.c:130-141 | the node on top of the key's stack, or null exactly when it is empty |
| BinHash.Table.Delete | src/util/binhash.c:147-174 | the top entry of the key goes, and no other; unknown keys are reported |
| BinHash.EnterUpdates | src/util/binhash.c:95-111 | while no key has two entries the table is a finite map, and entering a new key updates it, whether the table grows or not |
| BinHash.DeleteRemoves | src/util/binhash.c:147-174 | deleting a key then removes it from the map, and is refused exactly when it is not there |
| BinHash.GrowKeepsTopExact | src/util/binhash.c:74-91 | growing keeps what is found for a key iff the top and the bottom of its stack have the same value |
| BinHash.OlderComesUp | src/util/binhash.c:95-111 | a table in which a key entered twice is found with its new value, and after growing with its old one |
| BinHash.FirstWithKey | src/util/binhash.c:115-126 | the first node with a key in its chain is the top of its stack, and removing it is popping it |
| BinHash.MovedNode | src/util/binhash.c:85-88 | moving one more node of an old chain keeps the stacks as turned over so far |
| BinHash.Table.Bridge | src/util/binhash.c:158-163 | the chain without the node, linked both ways, at its head or further on |
| BinHash.Table.Unlink | src/util/binhash.c:158-163 | in the table only that chain loses the node; the others stay linked |
| BinHash.Table.Link | src/util/binhash.c:37-44 | the node goes in front of the chain its key hashes to, on top of its key's stack |
| BinHash.Table.Grow | src/util/binhash.c:74-91 | every node survives in a table of twice the size plus one, every key's stack turned over |
| BinHash.Table.MoveChain | src/util/binhash.c:85-88 | the inner loop moves exactly the nodes of one old chain, each on top of its key's stack |
| BinHash.Table.MoveAll | src/util/binhash.c:84-89 | the outer loop moves all of them; every stack comes out turned over |
| BinHash.Table.List | src/util/binhash.c:220-237 | each node exactly once and a null behind, within the allocation |
| BinHash.PlacedPush | src/util/binhash.c:37-44 | a new node in front of its chain keeps every node in its bucket |
| BinHash.PlacedDelete | src/util/binhash.c:147-174 | taking one out keeps every other node in its bucket |
| BinHash.FlatNodes | src/util/binhash.c:220-237 | the concatenated chains hold each node once |
| BinHash.TotalUpdate | src/util/binhash.c:37-44 | how the sum of chain lengths changes with one chain |
| Config.ServiceList.Refresh | src/master/master_conf.c:25-61 | afterwards the list has no duplicate and exactly the configured names and types, with the settings of the last entry; survivors are the old objects in their old order; the calls made are one start or restart per entry, with that entry's settings, then one stop per service that disappeared |
| Refresh.RefreshServes | src/master/master_conf.c:25-61 | carrying out these calls on the manager's state never panics and keeps its invariant; it then has exactly the configured services, each with the settings of its last entry; a service that was there before and lost no child has its counters, flags, listen socket and children still |
| Refresh.CallsAreEntries | src/master/master_conf.c:95-122 | whether each call is a start or a restart suits the services the manager has at that moment |
| Refresh.EntriesReflected | src/master/master_conf.c:77-123 | the entries, handled in order: settings of the last entry, nothing else of any service, no child and no timer changed |
| Refresh.HandleKeeps | src/master/master_conf.c:95-122 | the same for one entry, new or known |
| Refresh.StopIdsExact | src/master/master_conf.c:48-60 | exactly the manager's services that no entry names are stopped |
| Refresh.StopAllKeeps | src/master/master_conf.c:48-60 | the stops, in order, remove exactly these services and the dead children, and leave services without dead children as they were |
| Refresh.StopKeeps | src/master/master_service.c:41-50 | the same for one stop, whose wait loop may reap children of any service |
| Refresh.ReapAllSpares | src/master/master_spawn.c:204-231 | reaping leaves a service alone that lost no child |
| Config.ServiceList.Configure | src/master/master_conf.c:66-126 | the same for the loop over the entries; a service that no entry names keeps mark and settings |
| Config.ServiceList.Update | src/master/master_conf.c:81-122 | one entry updates the service it names, or adds one in front, and makes the call that goes with it |
| Config.ServiceList.Sweep | src/master/master_conf.c:48-60 | the pointer-to-pointer sweep is filtering out the marked services, and stops them in order |
| Config.ServiceList.SweepOne | src/master/master_conf.c:50-59 | one round of it |
| Config.ServiceList.Bypass | src/master/master_conf.c:52 | the assignment through the pointer unlinks exactly that service, at the head or further on |
| Config.ServiceList.MarkAll | src/master/master_conf.c:34-35 | every service is marked and the list is unchanged |
| Config.ServiceList.Find | src/master/master_conf.c:81-88 | the first service with that name and type |
| Config.HandledNext | src/master/master_conf.c:77-122 | the calls made stay one per entry, start or restart as the entries so far decide |
| Config.SweepConcat | src/master/master_conf.c:48-60 | unmarked services in front of the list pass the sweep |
| Config.LastExact | src/master/master_conf.c:66-126 | an entry decides the settings exactly when some entry names the service |
| VString.VBuf.Extend | src/util/vstring.c:21-29 | the contents survive a buffer at least doubled; the bytes moved are accounted for |
| VString.VBuf.AddCh | src/util/vbuf.c:20-23 | one byte is appended; extensions so far moved at most two bytes per byte appended |
| VString.VBuf.Write | src/util/vbuf.c:47-63 | the loop ends with all bytes appended, within the same bound |
| VString.VBuf.Space | src/util/vstring.c:48-57 | room for n bytes, contents unchanged |
| VString.VBuf.Terminate | src/util/vstring.h:48-50 | a NUL behind unchanged contents |
| VString.VBuf.Truncate | src/util/vstring.c:116-123 | the first n bytes at most |
| VString.VBuf.Strcpy | src/util/vstring.c:127-138 | the buffer read back as a C string is the source string |
| VString.VBuf.Strncpy | src/util/vstring.c:142-153 | at most n bytes of it |
| VString.VBuf.Memcpy | src/util/vstring.c:157-165 | exactly the bytes given |
| VString.VBuf.Memcat | src/util/vstring.c:169-176 | the bytes given behind what was there |
| VString.VBuf.Strcat | src/util/vstring.c:193-202 | the string behind what was there, terminated |
| VString.VBuf.Strncat | src/util/vstring.c:206-215 | at most n bytes of it |
| VString.CStringUpto | src/util/vstring.c:206-215 | where the bounded copy stops, without reading past the NUL or n |
| VString.ReadBack | src/util/vstring.c:127-138 | a terminated buffer read as a string gives its contents |
| VString.Realloc | src/util/vstring.c:21-29 | a larger block that starts with the old bytes |
| StringOp.String2ll | src/util/stringop.c:129-190 | accepts exactly the decimal forms of the 64-bit numbers, and returns the number |
| StringOp.Parse | src/util/stringop.c:129-190 | the same against the grammar: lone zero, or optional sign and digits without leading zero |
| StringOp.TooLarge | src/util/stringop.c:164-174 | the overflow tests reject only numbers out of range |
| StringOp.DenotesExact | src/util/stringop.c:126-128 | the grammar is the set of printed numbers |
| StringOp.NatOfDigits | src/util/stringop.c:164-174 | reading the digits of a number gives the number |
| StringOp.DigitsOfNat | src/util/stringop.c:164-174 | printing what digits denote gives the digits |
| Tokenizer.Mystrtok | src/util/stringop.c:40-62 | start of the next token, where to go on, and the only byte of the buffer that changes |
| Tokenizer.NextToken | src/util/argv.c:100-115 | the token as a string, and the unread suffix untouched |
| Tokenizer.SpansExact | src/util/stringop.c:40-62 | the tokens are exactly the maximal delimiter-free runs, in order |
| Tokenizer.TokensAreSpans | src/util/stringop.c:40-62 | the tokens are the texts of these runs |
| Tokenizer.SplitJoin | src/util/argv.c:80-96 | splitting joined tokens gives them back |
| Tokenizer.Argv.Add | src/util/argv.c:47-66 | the string goes last, with argc below len through growth |
| Tokenizer.Argv.Grow | src/util/argv.c:10-29 | twice the room, same strings |
| Tokenizer.SplitAppend | src/util/argv.c:100-115 | exactly the tokens go behind what is there, null behind them; the call then succeeds iff the string is not empty |
| Tokenizer.Split | src/util/argv.c:80-96 | a vector of exactly the tokens, iff the string is not empty; otherwise the panic of myfree |
| Tokenizer.SplitEmpty | src/util/mymalloc.c:98-108 | the empty string, which has no tokens, is the input that fails |

## Left out

- PoolProgress.WaitEnds: says that the end can be reached, in boundedly many steps while nothing is submitted; that the scheduler lets the threads take them is not claimed.
- Services.StopLeavesNoReference: that the children die after the signal is not claimed.
- ThreadPool.RunsAreSound: says nothing of what happens after a fault, where the ring is no longer a ring.
- Config.ServiceList.Refresh: makes a record of the calls; what carrying them out does is Refresh.RefreshServes, on values.
- VString.VBuf.Memcpy: the source bytes do not alias the buffer.
- VString.VBuf.constructor: the panic for a length below one.
- TimerQueue.TimerQueue.FireDue: that the callbacks of a program let the loop end is not claimed.
- The second test for a lone zero (src/util/stringop.c:157-159) cannot be reached after the first one, and is left out of StringOp.Parse.
- Failing epoll_ctl calls other than EEXIST and ENOENT, and dispatch to write callbacks.
- Partial reads, short messages and read errors on the status pipe.
- Polling back-off in thpool_wait (its earlier loops only read, so the last evaluation of the condition decides), thread_hold, several pools sharing threads_keepalive, and the teardown of mutexes.
- What a job does: jobs are numbers here.
- binhash_free and binhash_walk, argv_free, and freeing in general outside the timer queue.
- vstring_range, vbuf_read, import and export of buffers, formatted printing, vstream.
- The configuration file reader, logging, signals, socket wrappers, the main programs and services.
- The child's side of master_spawn after fork, up to exec.
