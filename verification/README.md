# OS-Domotics in Dafny

OS-Domotics is a tree of processes: a Controller, Hubs and Timers (control devices), and leaf devices. Every
control device keeps a routing table of what is below it, forwards requests down and passes answers up. This
project models the table, the protocol by which devices move between parents, the gathering of answers in
Hubs, the wire format, and the two devices driven by time, and proves what holds of them in every run.

How it is laid out, bottom up:

- `Devices`, `Forest`, `TableOps`: the routing table as a finite map from id to entry, ancestry, the recursive
  preorder and the stackless successor, insertion, recursive removal, and the two propagations of leaf types.
- `Routing`: the sixteen sorted buckets on the heap, refining that map method by method.
- `Protocol`, `Topology`, `TopologyTypes`, `NextHops`: the link check, what each response does to the Controller's
  table, exactness of types and recovery of next hops, command by command.
- `TopologyRuns`, `CompletedRuns`, `Signalling`, `Controller`: the same over runs, whom the Controller signals when
  devices die, and the Controller's methods.
- `Declarations`: runs of a Hub and of the Controller that end with an answer of the Hub the tree cannot take.
- `Replay`, `Forwarding`, `Delivery`: the announcements of a moved branch, and hop-by-hop delivery.
- `Broadcasts`, `HubTable`, `HubCounter`, `HubTypes`, `HubRuns`, `Hub`, `Aggregation`: the list of pending broadcasts
  against a ledger of everything ever asked, the Hub's counter and declared type, all of it as one machine, the
  Hub's methods, and the meaning of nested answers.
- `TimerTable`, `Schedule`, `Timer`: the Timer's single branch, its daily schedule and its methods.
- `Branches`, `Stations`, `Trees`, `Network`: tables that list exactly a branch of the tree, what a link makes of them
  at one Hub or Timer, what whole commands make of the tree, and the whole system - tree, tables and pipes - over runs
  of completed commands: adding, linking, deleting and losing devices.
- `BranchTypes`, `TypedHubs`, `TypedTimers`, `TypedTrees`, `TypedRuns`: the device types in all those tables, at one
  Hub, one Timer and in the tree, and over runs of the whole system.
- `Dialogue`: the messages behind the commands of that system, from what a moved device says to what the Controller
  writes to the old parent.
- `CStrings`, `Messages`: C strings in fixed buffers, printing and parsing of requests and responses.
- `Fridge`: the computed temperature, over the real numbers.

Components that change state in the program are classes whose methods are proved against pure functions of the
old state; the lemmas are about those functions. A pipe is a sequence of whole messages (`up`, `down`, `sent`),
a file descriptor is an integer that comes in as a parameter where the program opens a pipe, and each region the
program runs under its mutex is one atomic step. Descriptors, process ids, the clock and the obedience of the
autoclose thread are parameters.

## Where the program does not do what it sets out to do

Each of these has a lemma with a concrete case and a lemma with the exact condition under which the code is right.

- Two links checked against the same table can close a cycle (`TopologyRuns.TwoLinksInFlight`); a response keeps the
  table safe exactly when the check, made on the table it is applied to, would still allow it, or its parent is gone
  and the table stays as it is (`Topology.ResponseIsSafeIff`). In that last case the rest of the system does not stay
  as it is: code/src/controller.c:721-725 closes the pipe to a former child of the Controller before the insertion
  fails, and code/src/controller.c:776 still asks any other old parent to remove the device.
- One command after the other, a Hub can answer a remove-child request with a type that does not fit the tree, and
  code/src/controller.c:701 stores it: the type of a Timer, with two children left (`Declarations.TimerTypeIsUnsafe`),
  or that of an empty Hub, with a bulb left (`Declarations.EmptyTypeIsUnsafe`). Routing does not suffer: whatever is
  declared, the table stays a forest (`TopologyRuns.RunsAreForests`) and requests arrive (`Network.AlwaysDelivered`).
  The tree stays safe exactly as long as the answers fit the device's children and parent
  (`Topology.ChildRemovedIsSafeIff`, `TopologyRuns.RunsAreSturdyIff`, `Network.RunIsSafeIff`), and exact exactly when
  they also name no leaf type that is not there (`TopologyTypes.ChildRemovedIsExactIff`,
  `CompletedRuns.ReachableIsSoundIff`). A Hub's declared type stays in step, class included, exactly when every event
  meets its guard (`HubTypes.DeclaredTypeFollowsIff`, `TypedHubs.HubFollowsIff`), and a run of the whole system in
  which every guard is met keeps every type in every table right, so that every answer fits by itself
  (`TypedRuns.GuardedRunsAreFaithful`).
- A Timer ignores the removal of a device that it has already recorded elsewhere below it (code/src/timer.c:381), and
  then does not empty the types above the old parent. A bulb that moves from one Hub below a Timer to another one
  below it, and is then deleted, leaves the Timer declaring a bulb that is not there
  (`TypedTimers.MovedInsideIsKept`). The Timer's table has the types of the tree after a link exactly when the old
  parent is left with a child of its type, or empty (`TypedTimers.TimerIsTypedIff`).
- The 16-bit device counter wraps to the Controller's own id (`TopologyRuns.CounterWraps`); recording a device under
  any id is safe exactly when it is not that one and what already hangs from the id suits the new device
  (`Topology.AddIsSafeIff`).
- The last id before that is the one that marks answered slots in Hubs, and the first that breaks them. A broadcast
  counts as complete without one child exactly when the child has that id (`Broadcasts.CompleteEarlyIff`), and the
  loop that strikes a departed child ends exactly when its id is another one or no slot is marked
  (`Broadcasts.StrikingEndsIff`). `TopologyRuns.CounterWraps` is the run that hands it out.
- The Hub's child counter can stay too high for ever: a device that two links in flight send to the same Hub announces
  itself twice, and once it is deleted the Hub broadcasts to nobody and never answers (`HubCounter.SilentHub`). The
  counter is exact after a run exactly when every event met its guard (`HubCounter.CounterExactIff`), and the Hub is
  right about having children exactly when it has some, or the counter is exact and no removal is owed
  (`HubCounter.BelievesIff`).
- report.typ lets a Hub hold Timers, but the Timer's class bit enters the Hub's declared type and then hides the
  leaf type of the next child (`HubTypes.TimerChildHidesType`, `HubTypes.AddDirectAgreesIff`). Watching the leaf bits
  alone is not enough (`Declarations.LeafBitsAreNotEnough`).
- A device that moves from below a child Hub to the Hub itself is exempted from the Hub's search when the old parent
  reports its removal, so the Hub can declare itself empty with that device as its only child, and then refuses
  switches (`HubTypes.MovedUpIsForgotten`, `HubTypes.RemovedBelowAgreesIff`).
- A Hub without leaf devices below it refuses every switch, so one anywhere in a tree makes the root report a child
  error although every leaf obeys (`Aggregation.BareHubFailsSwitch`); a switch is answered without one exactly when no
  leaf failed and no Hub of the tree is bare (`Aggregation.SwitchReports`).
- The aggregates of broadcasts that end with the departure of one child are written over one buffer, and that of a
  delete keeps the arguments it finds: a delete that nobody failed can report the child error of a switch
  (`Broadcasts.DeleteGainsError`, and exactly when: `Broadcasts.DeleteGainsErrorIff`).
- When the new parent of the Controller's own child has vanished, the response is handled with OK although the device has
  not moved (`Controller.MoveAcceptedIff`).
- Responses without arguments, which error paths produce for links and registries, are not understood
  (`Messages.RefusedRemovalIsLost`); a response survives the wire exactly when its argument count agrees with its
  codes (`Messages.ResponseRoundTripIff`).
- With begin equal to end the Timer only ever switches on: requests reach that (`Schedule.EqualRegistersReached`), and
  the schedule ever switches off exactly when begin is before end (`Schedule.SwitchesOffIff`).

## Model

| member | source | states |
|---|---|---|
| Routing.RoutingTable.constructor | code/src/routing.c:11-15 | a new table is well formed and holds nothing |
| Routing.RoutingTable.Find | code/src/routing.c:60-69 | finding is lookup: the node of the id, or null exactly when the id is not recorded |
| Routing.RoutingTable.FindDirect | code/src/routing.c:71-89 | returns the least child of the parent after the last one, in the order of (id mod 16, id), or null when there is none |
| Routing.RoutingTable.FindAll | code/src/routing.c:91-114 | one step of the walk without stack or marks; it ends on every acyclic table |
| Forest.TraversalIsPreorder | code/src/routing.c:91-114 | repeating that step from the beginning yields exactly the recursive preorder below the root and then nothing, whether or not the root is an entry |
| Forest.PreorderIsExact | code/src/routing.c:91-114 | the preorder lists every device below the root exactly once, each after its parent |
| Forest.BranchHasSamePreorder | code/src/routing.c:91-114 | two tables that agree on who hangs below a device walk it in the same order |
| Routing.RoutingTable.FindUnreachable | code/src/routing.c:116-131 | the next entry of the whole table in bucket order, whether or not its parent is still there |
| Routing.RoutingTable.InsertInBucket | code/src/routing.c:159-197 | inserts or replaces by id and keeps every bucket strictly sorted |
| Routing.RoutingTable.InsertDirectPid | code/src/routing.c:17-30 | the table becomes the old one with exactly this entry set, reached by its own descriptor |
| Routing.RoutingTable.InsertIndirectPid | code/src/routing.c:36-54 | fails without effect exactly when the parent is unknown; otherwise the entry takes the next hop of its parent |
| TableOps.PutAcyclicIff | code/src/routing.c:159-197 | setting an entry keeps the table acyclic exactly when the new parent is neither the device nor below it |
| Routing.RoutingTable.Remove | code/src/routing.c:133-157 | removes exactly the device and everything below it, and nothing when the recorded parent is another; surviving entries keep their nodes |
| Routing.RoutingTable.RemoveBelow | code/src/routing.c:133-157 | its loop over first children removes everything below and nothing else |
| TableOps.BelowAfterRemove | code/src/routing.c:133-157 | whatever survives a removal keeps exactly its ancestors |
| Routing.RoutingTable.RemoveFromBucket | code/src/routing.c:199-215 | unlinks exactly the entry of the id |
| Routing.RoutingTable.RemoveChildren | code/src/hub.c:479-491 | the advance-then-remove loop removes every direct child once, in order, and leaves exactly what is not below the parent |
| Routing.RoutingTable.UpdateTypeToEmpty | code/src/routing.c:313-334 | the loop over the heap computes the upward emptying |
| Routing.RoutingTable.UpdateTypeToNotEmpty | code/src/routing.c:336-352 | the loop over the heap computes the upward filling with the device's leaf bits |
| TableOps.EmptyUpIsExact | code/src/routing.c:313-334 | if types are exact except that the start may be stale, emptying upwards makes them exact table-wide despite its early exit |
| TableOps.FillUpIsExact | code/src/routing.c:336-352 | if types are exact except above a compatibly inserted branch, filling upwards makes them exact there despite its early exit |
| TableOps.EmptyUpShape | code/src/routing.c:313-334 | emptying touches only leaf bits, only at or above the start, and only of non-empty devices: classes, parents and hops stay |
| TableOps.FillUpShape | code/src/routing.c:336-352 | filling touches only leaf bits, only at or above the start, and never those of a non-empty device |
| Topology.LinkCheckIff | code/src/controller.c:398-432 | the check accepts exactly the links to a known, compatible, free control device that is not below the target, or to the Controller |
| Topology.RefusalIs | code/src/controller.c:398-432 | which error a refused link gets: after the checks of the two devices it is that of the topmost device above the new parent that objects |
| Controller.Controller.CheckLink | code/src/controller.c:398-432 | the read-only loop returns that check's outcome, with later ancestors overwriting earlier errors |
| Controller.Controller.AddDevice | code/src/controller.c:520-575 | records the device as a direct child under the next id of the 16-bit counter, or nothing when its pipe cannot be created |
| Controller.Controller.ForwardRequest | code/src/controller.c:440-466 | writes the request to the next hop of its destination, or reports that there is no route |
| Controller.Controller.UpdateWithLinkResponse | code/src/controller.c:692-778 | the table becomes that of the response; exactly when a device moves away from another recorded device, one request to remove it is written, to that device and over its hop |
| Controller.MoveAcceptedIff | code/src/controller.c:706-778 | the result is OK exactly when the table has the device below the new parent afterwards, or when the Controller's own child names a vanished parent and the failed insertion goes unnoticed |
| Controller.Controller.UpdateWithDeleteResponse | code/src/controller.c:780-851 | the branch of the deleted device goes and the types above it are emptied |
| Controller.Controller.ShutdownDevices | code/src/controller.c:1116-1144 | signals every device once and, on a complete shutdown, leaves none below the parent |
| Controller.Controller.ReapDead | code/src/controller.c:1204-1268 | visits every entry present at the start once, removes exactly the dead ones, tells the parents still recorded, and signals what is still recorded below each |
| Signalling.SignalledIff | code/src/controller.c:1248-1252 | of the devices alive exactly those below a dead one are signalled |
| Controller.ReapingDone | code/src/controller.c:1204-1268 | what the finished loop has achieved, in terms of the table it started from: a compatible table stays so, and an exact one exact, in whatever order the dead are met |
| Controller.ToldIff | code/src/controller.c:1222-1238 | of the devices alive, exactly the parents of dead ones are told, of exactly these children and over the children's hop |
| Controller.ToldOnce | code/src/controller.c:1204-1268 | and of each child once |
| Topology.LinkKeepsSafe | code/src/controller.c:706-778 | accepting the response to a checked link keeps the table safe and moves exactly the linked device |
| Topology.ResponseIsSafeIff | code/src/controller.c:420-429 | a response for another parent keeps the table safe exactly when the link is allowed on the table it is applied to, or the parent is gone |
| Topology.AddIsSafeIff | code/src/controller.c:520-550 | recording a device under any id is safe exactly when it is not the Controller's and suits what hangs from it |
| Topology.ReapedIsSafeIff | code/src/controller.c:1204-1268 | forgetting dead devices is safe exactly when no survivor hangs from one |
| Topology.ChildRemovedIsSafeIff | code/src/controller.c:693-704 | storing the type a remove-child answer declares, and emptying above, keeps the table safe exactly when the type fits the device's children and parent |
| Topology.ChildRemovedIsForestedIff | code/src/controller.c:693-704 | it keeps the forest exactly when a device with children declares itself a control device |
| TopologyRuns.StepKeepsInvariant | code/src/controller.c:692-851 | every event of a serial run keeps the table a forest with childless leaves, whatever types answers declare, responses naming a vanished parent and arbitrary crashes included; it stays sturdy exactly when the declared type fits, and known parents are lost exactly by a crash that leaves an orphan |
| TopologyRuns.RunsAreForests | code/src/controller.c:398-1268 | in every serial run, whatever is declared and whatever crashes, there is no cycle and leaves are childless |
| TopologyRuns.RunsAreSturdyIff | code/src/controller.c:398-1268 | Timers have at most one child and a non-empty child agrees with its parent, throughout the run, exactly when every declared type fits |
| TopologyRuns.RunsAreRootedIff | code/src/controller.c:398-1268 | every parent is recorded throughout the run exactly when no crash leaves an orphan |
| TopologyRuns.ReachableIsSafe | code/src/controller.c:398-1268 | so every table reachable from an empty one is a forest, below the Controller if no crash leaves an orphan, and safe if declared types fit as well |
| TopologyRuns.CounterWraps | code/src/controller.c:520-550 | a run hands out the id that marks answered slots, and the next id makes the table unsafe |
| CompletedRuns.StepKeepsRoutes | code/src/controller.c:692-1268 | a new device, a completed link, a deletion and a completed crash keep a tree with right hops, whatever the old parent declares |
| CompletedRuns.StepIsSoundIff | code/src/controller.c:692-1268 | they keep safety, exact types and right hops together exactly when the old parent answers sincerely |
| CompletedRuns.ReachableIsSoundIff | code/src/controller.c:692-1268 | so in every run from an empty table every device is reached through its topmost ancestor, and types are exact throughout exactly when every old parent answers sincerely |
| Topology.HangsFromController | code/src/controller.c:398-432 | in a rooted table every device hangs from the Controller |
| TopologyRuns.TwoLinksInFlight | code/src/controller.c:420-429 | two links checked against one table can together close a cycle |
| Forest.ClimbsEndIff | code/src/controller.c:420-429 | every climb by parents ends exactly when the table is acyclic |
| TopologyTypes.LinkIsExactOutside | code/src/controller.c:721-778 | after a link's response, types are exact everywhere but at the old parent |
| TopologyTypes.ChildRemovedIsExactIff | code/src/controller.c:693-704 | the answer of the only inexact device leaves the table safe and exact exactly when the declared type fits and names no leaf type that is not there |
| TopologyTypes.TruthfulIsSincere | code/src/controller.c:693-704 | an answer that keeps the class and names what is left below is such |
| TopologyTypes.CompletedLinkIsExactIff | code/src/controller.c:692-778 | a completed link ends safe and exact exactly when the old parent's answer is such |
| TopologyTypes.DeletedIsExact | code/src/controller.c:827-831 | deleting a device keeps types exact |
| NextHops.HopIsTopmost | code/src/routing.c:36-54 | when hops agree with parents, every device is reached through the direct child at the top of its branch |
| NextHops.MovedBranchIsStaleIff | code/src/controller.c:721-778 | after a response and before the replay, hops are wrong exactly when something hangs below the moved device and its pipe changed |
| NextHops.ReplayRestoresHops | code/src/controller.c:706-719 | processing the moved device's preorder makes every hop of the whole table right again and changes nothing else |
| NextHops.DeviceReplayRestoresHops | code/src/hub.c:675-686 | the same with the list taken from the moved device's own table |
| Replay.ReplayRoundTrip | code/src/hub.c:675-686 | folding the announcements into the receiver's table rebuilds the branch exactly, behind the pipe of the moved device |
| Replay.ReplayRepairs | code/src/hub.c:675-686 | a receiver that has recorded the branch before, with stale hops, ends with the branch of the sender behind the new pipe, with all hops right and everything else kept |
| Replay.ReplayNeverRefused | code/src/timer.c:755-780 | no announcement meets an unknown parent, whatever the receiver has recorded before |
| Delivery.Delivered | code/src/hub.c:263-285 | a request for a device k levels down is held in turn by exactly the devices on the way and arrives after k writes |
| Delivery.DeliveredFromController | code/src/controller.c:460-461 | from the Controller it takes as many writes as the device is deep, all holders before being ancestors |
| Delivery.ArrivesIff | code/src/timer.c:578-590 | a request arrives exactly when its destination is the sender or below it |
| Delivery.BuiltTable | code/src/routing.c:17-54 | a table built parents-first is a forest below its owner in which every hop is the pipe of the branch |
| Delivery.BuiltTableKnows | code/src/routing.c:17-54 | such a table, built with the true parents, is what delivery needs |
| Stations.HubIsLinked | code/src/hub.c:526-673 | however a link passes a Hub - above the new parent, above the old one, both or neither - and wherever in the replay the removal comes, it is told only what it expects and ends with exactly the branch it then has, right hops, and no removal owed |
| Stations.TimerIsLinked | code/src/timer.c:252-405 | the same for a Timer |
| Trees.LinkedTreeIsSafeIff | code/src/controller.c:692-778 | from a safe tree a whole link, the removal coming anywhere in the replay, ends in a safe one exactly when the old parent's answer fits |
| Network.CheckIsEnough | code/src/controller.c:398-432 | the check of one link is enough for every table its responses pass, whenever the removal comes: no announcement closes a cycle there, and no removal comes unexpected |
| Network.StepKeepsSound | code/src/controller.c:440-1268 | every added device, completed link, deletion and crash of a branch leaves every Hub and Timer knowing exactly its branch of the Controller's tree, with right hops over open pipes, whatever old parents declare |
| Network.SoundIsConsistent | code/src/hub.c:263-285 | such a system is one in which requests find their way |
| Dialogue.SaidIsHeard | code/src/hub.c:526-555 | what a moved device announces of itself and its branch is, message by message, what the Hubs and Timers above it take for the events of the link |
| Dialogue.AnswerToMove | code/src/hub.c:582-602 | these messages are the answer to the change-parent request, with the declared type, and the replay of the table |
| Dialogue.HubMakesStep | code/src/hub.c:517-555 | handling a message is making the step of its event, at a Hub |
| Dialogue.TimerMakesStep | code/src/timer.c:262-405 | and at a Timer |
| Dialogue.LinkIsHandled | code/src/controller.c:692-778 | the tree after a link is what the Controller makes of those messages one by one, with the answer of the old parent anywhere among the replay |
| Dialogue.RemovalIsRequested | code/src/controller.c:740-776 | in a system in step, a link from another device makes the Controller write exactly one request; it is delivered to the old parent, asks it to remove the device, and is what each Hub and Timer forgets the device by; a link from the Controller writes none, and nobody is to forget anything |
| Dialogue.RemovalIsStored | code/src/controller.c:693-704 | the type declared in the answer to it is what the Controller stores |
| Dialogue.DeathIsReported | code/src/controller.c:1222-1238 | when a branch dies, the one notice to a device alive is delivered to the parent and is what each Hub and Timer forgets the branch by |
| Network.AlwaysDelivered | code/src/controller.c:440-466 | after any run of completed commands from an empty system, whatever old parents declare, the Controller reaches every device, in as many writes as it is deep and by way of its ancestors only, and nothing else |
| Network.StepIsSafeIff | code/src/controller.c:692-1268 | a command leaves a safe tree safe exactly when what is declared on the way fits |
| Network.RunIsSafeIff | code/src/controller.c:692-1268 | so the tree is safe throughout a run exactly when every answer in it fits |
| Network.TimerAnswerFits | code/src/timer.c:699-715 | the type a Timer declares when its child leaves always fits the tree |
| Network.FollowingAnswerFits | code/src/hub.c:190-191 | so does that of a Hub whose declared type is in step and that sees what the Controller sees |
| TypedHubs.HearerAccepts | code/src/hub.c:526-673 | whatever a Hub hears of an allowed link suits the types in its table, which are those of the tree when the Hub answers and when the link is over |
| TypedHubs.HubFollowsIff | code/src/hub.c:526-673 | its declared type is in step all through the link exactly when every event meets its guard |
| TypedTimers.TimerIsTypedIff | code/src/timer.c:366-392 | a Timer's table has the types of the tree after a link exactly when the removal leaves the old parent in it with a non-empty child, or empty |
| TypedTimers.MovedInsideIsKept | code/src/timer.c:366-392 | the run after which a Timer declares a bulb with only two Hubs below it |
| TypedTrees.LinkedTreeTypes | code/src/controller.c:692-778 | a whole link with a truthful answer leaves the Controller's types safe and exact |
| TypedRuns.StepKeepsFaithful | code/src/controller.c:440-1268 | from a system in which every table has the types of the tree, a guarded command leads to such a system, and whatever is declared on the way fits |
| TypedRuns.DeclaredIsRecorded | code/src/hub.c:190-191 | in such a system every device declares the type the Controller records for it |
| TypedRuns.GuardedRunsAreFaithful | code/src/controller.c:440-1268 | so after every guarded run from an empty system the tree has been safe throughout and is exact, and every table and declared type agrees with it |
| Declarations.TimerTypeIsUnsafe | code/src/hub.c:526-541 | a run of a Hub and one of the Controller, agreeing on the Hub's children, after which the Hub's answer puts two children below a Timer |
| Declarations.EmptyTypeIsUnsafe | code/src/hub.c:639-673 | the same without Timers: the answer puts a bulb below an empty Hub |
| Declarations.LeafBitsAreNotEnough | code/src/hub.c:526-541 | a Hub whose leaf bits are in step can still answer with a Timer's class, which no safe table with two children accepts |
| Broadcasts.StepRefines | code/src/hub.c:210-241 | every event changes the Hub's list as it changes the ledger, and sends the ledger's aggregates |
| Broadcasts.ExactlyOnce | code/src/hub.c:319-350 | in every run the list holds exactly the open broadcasts, each non-empty broadcast gets one aggregate, when its last awaited child answers or goes, and requests of one command stay in order |
| Broadcasts.NoneComplete | code/src/hub.c:436-461 | no fully answered broadcast stays in the list |
| Broadcasts.AnsweredInOrder | code/src/hub.c:365-390 | of two requests of one command over growing child sets the earlier is answered first |
| Broadcasts.CreditFirst | code/src/hub.c:365-390 | handling the first match in place amounts to crediting the oldest broadcast that awaits the sender |
| Broadcasts.DepartStep | code/src/hub.c:436-452 | striking one first match leaves the same work for the rest, so the loop strikes the child from all |
| Broadcasts.StrikingEndsIff | code/src/hub.c:436-452 | on the lists a Hub can hold, that loop ends exactly for ids other than the marker, or when no slot is marked |
| Broadcasts.NobodyAwaitsDeparted | code/src/hub.c:436-452 | and then nobody awaits the departed child any more |
| Broadcasts.CompleteEarlyIff | code/src/hub.c:373-383 | with everybody else answered, a broadcast counts as complete without one child exactly when that child has the marker's id |
| Hub.Hub.CheckPending | code/src/hub.c:365-390 | clears the sender's slots in the first broadcast that awaits it, and tells whether that one is complete |
| Hub.Hub.CheckCompleteAndSend | code/src/hub.c:436-452 | ends with nobody awaiting the departed child and sends one aggregate for each broadcast this completes, in order |
| Hub.Hub.SendAggregate | code/src/hub.c:422-461 | formats, sends and forgets the completed broadcast |
| Broadcasts.AggregateCarries | code/src/hub.c:557-580 | the aggregate of a switch carries a child error and nothing else exactly when a child failed, that of an info its state and time besides, and that of a delete without failure whatever the buffer holds |
| Broadcasts.DeleteGainsErrorIff | code/src/hub.c:436-452 | of aggregates sent in a row, that of a delete without failure carries a child error exactly when the buffer still has that of an earlier broadcast or of the first response |
| Broadcasts.DeleteGainsError | code/src/hub.c:436-452 | the run in which it does |
| Hub.Hub.CreditAnswer | code/src/hub.c:319-336 | an awaited answer is merged and, if it was the last, answered upwards |
| Hub.Hub.BottomUp | code/src/hub.c:287-360 | the whole effect of one response on table, counter, type, broadcasts and messages |
| Hub.AnswerIsEvent | code/src/hub.c:319-350 | a response that is not a successful link is one event of the broadcast machine: the departure of a sender nobody awaits that deletes itself, else an answer, told from a Hub or not by the table |
| Hub.Hub.ForwardToChildren | code/src/hub.c:210-241 | sends every direct child once the same code and argument, under its own id and over its own hop, and awaits exactly those |
| Hub.EveryChildIsAsked | code/src/hub.c:219-240 | a broadcast is exactly one message for each direct child, over its own hop |
| Hub.Hub.WriteToChildren | code/src/hub.c:219-240 | the fill loop stays within the allocated slots and lists the children in bucket order |
| Hub.Hub.ExecuteCommand | code/src/hub.c:116-161 | with children, every info and delete request is broadcast, and a switch exactly when its label suits the leaf bits of the declared type; anything else is refused; without children an info and a delete are answered and the rest refused |
| HubTypes.TakenByChildIff | code/src/hub.c:125-129 | with the declared type in step, the label suits exactly when some direct child takes the switch |
| Protocol.SwitchFitsIff | code/src/bulb.c:155-172 | a label suits a leaf device exactly when a switch with that label can change its state |
| Hub.PassedOnIff | code/src/hub.c:517-555 | a link response is passed on as OK exactly when the Hub's table has taken it over, and a refused one has changed nothing |
| Hub.Hub.SendToChild | code/src/hub.c:263-285 | forwards a request towards its destination or reports that there is no route |
| Hub.Hub.AddChild | code/src/hub.c:526-555 | direct and indirect announcements change table, counter and declared type as specified, and unknown parents are refused |
| Hub.Hub.RemoveChild | code/src/hub.c:604-637 | forgets a branch, counts down when it was requested or direct, and brings the declared type up to date |
| Hub.Hub.UpdateType | code/src/hub.c:639-654 | empties the declared type exactly when no direct child but the named one is non-empty |
| Hub.Hub.LinkRemoveChildReceived | code/src/hub.c:660-673 | drops the branch only if it still hangs from the sender, and empties types from there |
| Hub.Hub.RemoveChildRequested | code/src/hub.c:82-192 | refuses the request without children, or answers it, forgets the child, and completes what only waited for it |
| Hub.Hub.ReplayHistory | code/src/hub.c:675-686 | sends the announcements of everything below the Hub, in preorder |
| Hub.Hub.LinkChangeParent | code/src/hub.c:582-602 | answers the new parent and replays exactly when the parent changed |
| Hub.Hub.HandleShutdown | code/src/hub.c:479-491 | forgets every direct child, once each, with its branch |
| HubTable.StepKeepsInvariant | code/src/hub.c:526-673 | the counter stays at least the number of direct entries plus the removals still owed |
| HubTable.BroadcastFits | code/src/hub.c:219-247 | in every run the array allocated with `children` slots has room for every direct child |
| HubTable.CounterOverestimates | code/src/hub.c:535-546 | announcing one child twice and deleting it leaves the counter at one over an empty table |
| HubCounter.StepExactIff | code/src/hub.c:526-673 | from an exact counter, an event leaves it exact exactly when its guard holds |
| HubCounter.CounterExactIff | code/src/hub.c:526-673 | after any run the counter is exact exactly when every event met its guard |
| HubCounter.BelievesIff | code/src/hub.c:526-637 | the Hub believes in children exactly when the counter is not zero, and is right exactly when it has some, or every event met its guard and no removal is owed |
| HubCounter.BroadcastToNobodyStays | code/src/hub.c:210-241 | a broadcast without slots is never answered |
| HubCounter.SilentHub | code/src/hub.c:116-161 | the run after which a Hub broadcasts to nobody |
| HubRuns.StepKeepsJoint | code/src/hub.c:210-673 | table, counter, list and ledger keep their invariants together, event by event |
| HubRuns.HubIsSound | code/src/hub.c:210-673 | in every run of the whole Hub the next broadcast fits its array, asks every direct child once, and what was asked is answered exactly once |
| HubTypes.AddDirectAgreesIff | code/src/hub.c:538-542 | a direct child, new or announced again, leaves the leaf type in step exactly when the declared type was plain, the leaf types are equal, or the child is empty and another one is not |
| HubTypes.AddIndirectAgreesIff | code/src/hub.c:546-553 | the same for a device added deeper |
| HubTypes.RequestedAgrees | code/src/hub.c:604-637 | a requested removal keeps the declared type in step |
| HubTypes.DeletedAgrees | code/src/hub.c:604-637 | so does an unsolicited delete |
| HubTypes.EmptiedIff | code/src/routing.c:313-334 | a non-empty device ends empty exactly when it is on the way up and nothing non-empty below it is off that way |
| HubTypes.RemovedBelowAgreesIff | code/src/hub.c:660-673 | a removal reported from below does so exactly when the table it finds does not have the named device as the one direct child that stays non-empty |
| HubTypes.StepFollowsIff | code/src/hub.c:526-673 | any event leaves leaf type and class of the declared type in step exactly when its guard holds |
| HubTypes.FollowingIsTruthful | code/src/hub.c:190-191 | a declared type in step is truthful towards a Controller that records the same non-empty devices below the Hub |
| HubTypes.DeclaredTypeFollowsIff | code/src/hub.c:116-138 | the declared type is a Hub's with the leaf type of the children throughout a run exactly when every event meets its guard, and then a switch is broadcast exactly when a direct child takes it |
| HubTypes.TimerChildHidesType | code/src/hub.c:538-542 | after a Timer, a bulb leaves the declared type empty |
| HubTypes.MovedUpIsForgotten | code/src/hub.c:639-673 | the run after which a Hub declares itself empty with a bulb directly below it |
| Aggregation.Flattens | code/src/hub.c:392-420 | the answer of any tree of Hubs to an info, a switch or a delete: the join of the answering leaves' states and the maximum of their times for an info, and a child error exactly when something below failed |
| Aggregation.SwitchReports | code/src/hub.c:567-573 | a switch whose label suits the leaves is answered OK, with a child error exactly when some leaf failed or some Hub of the tree has no leaf below it |
| Aggregation.BareHubFailsSwitch | code/src/hub.c:116-161 | a tree in which every leaf obeys and the root reports a child error |
| Aggregation.DeleteReports | code/src/hub.c:575-580 | a delete is answered OK, with a child error exactly when some leaf failed, whatever the nesting and the order |
| Aggregation.NestingDoesNotMatter | code/src/hub.c:392-434 | trees over leaves with the same answers give the same reply however they are nested, for all three commands |
| Aggregation.OrderDoesNotMatter | code/src/hub.c:392-434 | nor does the order of the answers |
| Aggregation.BroadcastGathers | code/src/hub.c:319-336 | one broadcast of any command over distinct children, served in any order, completes with exactly that gathered summary |
| TimerTable.StepKeepsInvariant | code/src/timer.c:252-405 | every response from below keeps the table the branch of the one control child and the declared type that of the child |
| TimerTable.RunKeepsInvariant | code/src/timer.c:262-405 | so in every run |
| TimerTable.DropKeeps | code/src/timer.c:395-404 | dropping the child empties the whole table |
| TimerTable.MovedTimerIsRebuilt | code/src/timer.c:723-780 | after any run, the announcements of a moved Timer rebuild exactly its branch at whoever has recorded the Timer, even if it had recorded some of it elsewhere |
| Timer.Timer.Follow | code/src/timer.c:262-391 | of the four updates tried for a response at most one applies, with its exact effect |
| Timer.Timer.AcquireChild | code/src/timer.c:262-296 | only a control child enters the table, and the types are refreshed |
| Timer.Timer.AcquireDescendant | code/src/timer.c:298-327 | a device below is learned, or ignored when its parent is unknown |
| Timer.Timer.ReleaseChild | code/src/timer.c:332-360 | the sender of a delete response is dropped with its branch |
| Timer.Timer.ReleaseRemovedDescendant | code/src/timer.c:366-392 | a device is forgotten only if it still hangs from the sender |
| Timer.Timer.LinkChangeParent | code/src/timer.c:616-698 | the own answer comes first, then, exactly when the parent changed, the replay of the branch |
| Timer.Timer.LinkRemoveChild | code/src/timer.c:699-715 | only the one child can be removed, and the answer declares the type that is left |
| Timer.Timer.ReplaySubtree | code/src/timer.c:755-780 | announces the whole table in preorder |
| Timer.Timer.ReplayChildAdd | code/src/timer.c:723-750 | announces a leaf child alone |
| Timer.Timer.Forward | code/src/timer.c:578-600 | a request for another device goes to the child whoever it is for, or is answered with an error |
| Timer.Timer.CreateRegistryResponse | code/src/timer.c:802-838 | the registers and the answer are those of the registry step, and stay in order |
| Timer.Timer.ScheduleTurn | code/src/timer.c:528-566 | sleeps to the next register and, exactly at begin, turns a child that obeys its label on, and off otherwise |
| Timer.Timer.RunSchedule | code/src/timer.c:528-566 | all switches go to the child, and after them it is on or open, and mirrored so, exactly when the last wake-up was at begin |
| Timer.SwitchIsObeyed | code/src/timer.c:504-510 | a device of the child's leaf type is on or open after a switch to on, and off or closed after one to off, whatever it was |
| Timer.ScheduleIsObeyed | code/src/timer.c:528-566 | so after any number of wake-ups it is on or open exactly when the last of them was at begin |
| Timer.ScheduleKeepsWindow | code/src/timer.c:528-566 | and at every second from the first wake-up on exactly inside the window, for begin before end |
| Timer.ScheduledSwitchFitsIff | code/src/timer.c:506-513 | a scheduled switch carries a label the child obeys exactly when the child is not empty |
| Schedule.RefusedIffOutOfOrder | code/src/timer.c:811-828 | a register is refused exactly when accepting it would break begin <= end < 1440 |
| Schedule.RegistryStores | code/src/timer.c:802-838 | an accepted register is stored, the other one is kept, and a refused request changes nothing |
| Schedule.RegistersStayInOrder | code/src/timer.c:802-838 | begin <= end < 1440 in every reachable state |
| Schedule.SleepIsPositive | code/src/timer.c:546-558 | every computed sleep is positive and at most a day |
| Schedule.NothingSkipped | code/src/timer.c:546-558 | from the start on the thread sleeps through neither begin nor end |
| Schedule.CommandedMatchesWindow | code/src/timer.c:528-566 | between wake-ups the commanded state is on exactly when the second of the day lies in [begin, end), for begin < end |
| Schedule.EverySecondIsCovered | code/src/timer.c:528-566 | every second from the first wake-up on lies between two wake-ups |
| Schedule.SwitchesOffIff | code/src/timer.c:546-555 | the schedule ever switches off exactly when begin < end |
| Schedule.EqualRegistersReached | code/src/timer.c:802-838 | a request makes begin and end equal, and then nothing switches off |
| CStrings.StringLength | code/src/utils.c:14-22 | the length of the text before the first terminator, or the whole length when there is none |
| CStrings.StringToUnsigned | code/src/utils.c:24-35 | the 32-bit decimal value up to the end or a line feed, as a signed integer, or the error |
| CStrings.NumberOfDecimalIff | code/src/utils.c:24-35 | a printed 32-bit number is read back exactly when it does not need the top bit |
| CStrings.NumberIff | code/src/utils.c:24-35 | a line is an error exactly when it holds anything but digits, and otherwise read as its decimal value in 32 bits, signed |
| CStrings.TokensOfSpaced | code/src/messages.c:20-33 | splitting undoes joining with single spaces |
| CStrings.TokensOfJoined | code/src/messages.c:20-33 | splitting at any space is splitting both sides, so the words do not depend on the spacing |
| CStrings.NextToken | code/src/messages.c:20-33 | the in-place tokenizer cuts out the first word and leaves the others, whatever runs of spaces there are |
| Messages.FormatRequest | code/src/messages.c:58-72 | reports a short buffer exactly when the text does not fit, and otherwise the buffer holds the terminated text |
| Messages.FormatResponse | code/src/messages.c:146-178 | the same for a response, printed argument by argument within the remaining bytes |
| Messages.ParseRequest | code/src/messages.c:11-56 | result and structure are those of the parsed words, including what is overwritten before an error |
| Messages.ParseResponse | code/src/messages.c:74-144 | the same for a response, with at most six arguments |
| Messages.RequestAcceptedIff | code/src/messages.c:11-56 | a request is accepted exactly when it starts with the numbers its code asks for, and then holds them |
| Messages.ResponseAcceptedIff | code/src/messages.c:74-144 | a response is accepted exactly when it starts with three numbers and what follows suits its codes, and then holds up to six of those |
| Messages.RequestRoundTrip | code/src/messages.c:11-72 | parsing a printed request gives it back, the argument only when the code carries one |
| Messages.ResponseRoundTripIff | code/src/messages.c:74-178 | parsing a printed response gives it back exactly when its argument count agrees with its codes |
| Messages.RefusedRemovalIsLost | code/src/messages.c:118-126 | the refusal of a remove-child request is parsed with a format error |
| Messages.RequestThroughPipe | code/src/messages.c:11-72 | the round trip through a buffer, whatever it held before |
| Messages.ResponseThroughPipeIff | code/src/messages.c:74-178 | the same for responses |
| Messages.MessagesFit | code/src/headers/messages.h:19-35 | every request fits 24 bytes and every response of at most six arguments fits 64 |
| Fridge.Fridge.CalculateCurrentTemperature | code/src/fridge.c:286-325 | the branches compute the specified temperature |
| Fridge.Fridge.SetState | code/src/fridge.c:227-248 | the door moves exactly when the thread obeys or is not needed, a change that is asked for is stamped, and the temperature does not jump |
| Fridge.Fridge.CreateRegistryResponse | code/src/fridge.c:139-172 | an accepted register is stored and a refused one changes nothing; setting the thermostat does not make the temperature jump |
| Fridge.Fridge.CreateSwitchResponse | code/src/fridge.c:174-188 | after a positive open or close answered OK the door is open exactly if it was an open; otherwise the door stays |
| Fridge.RegistryStores | code/src/fridge.c:139-172 | which registers are accepted, and that nothing else changes |
| Fridge.DoorAfter | code/src/fridge.c:227-284 | where any event leaves the door, automatic closing included, and what it stamps; with a thread that obeys the door follows the switch as any leaf device does |
| Fridge.DoorIsLastMoved | code/src/fridge.c:174-284 | after any run the door is where the last event that moves it has put it |
| Fridge.OpenWarms | code/src/fridge.c:286-294 | an open Fridge warms evenly until it has the temperature around it |
| Fridge.OpenGetsWarm | code/src/fridge.c:286-294 | which is after ten minutes at the latest |
| Fridge.StepKeepsTemperature | code/src/fridge.c:139-248 | no command changes the temperature of the moment it is given, and all keep the invariant |
| Fridge.AlwaysInRange | code/src/fridge.c:286-325 | after any commands at non-decreasing times the temperature lies in [0, 26] at every later moment |
| Fridge.SettlesMonotonically | code/src/fridge.c:295-311 | a closed Fridge moves monotonically to two degrees below the thermostat and does not pass it |
| Fridge.SettlesEvenly | code/src/fridge.c:295-311 | until then its temperature is linear in time, four degrees in five minutes down or in 55 up, and it has settled when another second would pass the bound |
| Fridge.SettledInBand | code/src/fridge.c:312-323 | from then on it stays within two degrees of the thermostat for ever |
| Fridge.CyclesEvenly | code/src/fridge.c:312-323 | and in that band it warms evenly for 55 minutes and cools evenly for five |
| Fridge.SettlesInTime | code/src/fridge.c:295-323 | settling takes at most 55 minutes |
| Fridge.SwingsFully | code/src/fridge.c:312-323 | every cycle reaches both ends of the band |
| Fridge.NeverJumps | code/src/fridge.c:286-325 | from one second to the next the temperature moves no faster than the door or the compressor allows |

## Left out

- Failing system calls and memory allocation, signals, process creation, opening and closing of pipes: they are assumed to succeed, except the autoclose thread, whose failures are part of `Fridge.Fridge.SetState`, and the creation of a new device's pipe in `Controller.Controller.AddDevice`.
- Threads and mutexes: each locked region is one step, so races outside the locks and thread cancellation are not modelled.
- The terminal, scenario files, the device registry file and all text shown to users.
- Bulb, Window and manual interaction: their state machines would only add easy members.
- The part of the Controller's command check that is not about links, and its own state, list and sleep commands.
- Mirrored replies of the Timer (`take_pending`, `handle_own_reply`, and the info, switch and delete requests that wait for them): the Timer's `Follow` is everything a response changes before that.
- Timer.Timer.RunSchedule: runs with unchanged registers and child, and each sleep ends exactly on time; interleaved commands, early wake-ups and changes of local time are not modelled.
- Rounding of C floats: temperatures are real numbers; only the truncation to whole seconds is kept.
- The Fridge's info response and the change of its parent.
- The flag `is_complete` of a pending broadcast is a result of `Hub.Hub.CheckPending`, because it is recomputed before every use.
- Hub.Hub.RemoveChildRequested: the removal and the sending of its answer are two locked regions with a random delay between them; the method does both in a row. It requires what `Broadcasts.StrikingEndsIff` requires of the id.
- Hub.Hub.CheckCompleteAndSend: requires an id other than NO_ID or a list without marked slots, the exact condition of `Broadcasts.StrikingEndsIff`; otherwise the loop of the program does not end.
- Hub.Hub.BottomUp: requires the same of the id in a delete response, two arguments in a link response (with one, the program reads an argument left over from an earlier message), and that a change-parent response does not hang a device below itself, after which climbs would not end (`Forest.ClimbsEndIff`); `Network.CheckIsEnough` shows that the Controller's check excludes the last as long as commands are completed one after the other.
- Hub.Hub.AddChild: requires that the announcement does not hang a device below itself.
- Timer.Timer.Follow: requires that a change-parent response does not hang a device below itself, and two arguments in a link response.
- Timer.Timer.AcquireDescendant: requires that the announcement does not hang a device below itself.
- TopologyRuns.RunsAreForests: responses are processed before the next check, and the device counter has not wrapped; `TopologyRuns.TwoLinksInFlight` and `Topology.AddIsSafeIff` show why.
- TopologyRuns.RunsAreSturdyIff: the same.
- TopologyRuns.RunsAreRootedIff: the same.
- CompletedRuns.ReachableIsSoundIff: a crash is of one branch at a time, and counts once all of it is reaped and the parent has answered.
- Network.AlwaysDelivered: commands are completed one after the other; a crash is of one branch at a time, and counts once all of it is reaped and the parent has answered; a new pipe gets a descriptor that is not in use for another child; and runs are shorter than the range of a Hub's 32-bit counter. Leaf devices keep their type.
- Network.StepKeepsSound: the same.
- Network.FollowingAnswerFits: that both see the same non-empty devices below the Hub is assumed; `TypedRuns.StepKeepsFaithful` shows it of guarded runs.
- TypedRuns.GuardedRunsAreFaithful: the assumptions of `Network.AlwaysDelivered`. The guards of Hubs and Timers are sufficient for the whole system; they are necessary station by station (`TypedHubs.HubFollowsIff`, `TypedTimers.TimerIsTypedIff`).
- HubTypes.AddIndirectAgreesIff: a device recorded already is announced with the leaf type it is recorded with, as `TypedHubs.HearerAccepts` shows of allowed links.
- Replay.ReplayRoundTrip: the receiver has recorded nothing of the branch; `Replay.ReplayRepairs` is about those that have, and `TypedHubs.HearerAccepts` about the leaf types of the devices above.
- Broadcasts.ExactlyOnce: nobody is asked, answers or departs under the id NO_ID; `Broadcasts.CompleteEarlyIff` says what goes wrong otherwise.
- HubRuns.HubIsSound: the same, and runs shorter than the range of the 32-bit counter.
- HubTable.BroadcastFits: runs shorter than the range of the 32-bit counter.
- Aggregation.Flattens: trees hold Hubs and leaves of one type only; a Timer's answer is turned into its own and is not part of this model. The last answer to a broadcast comes from a child, not with its departure; `Broadcasts.DeleteGainsErrorIff` is about that case.
- Delivery.Delivered: tables and pipes do not change while the request is on its way.
