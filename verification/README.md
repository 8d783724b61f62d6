# kbkb: a verified model of the game

kbkb plays a falling-block game with Kubernetes objects: Nodes are columns, Pods are blocks, a scheduler binds the pair the
player drops, and a controller deletes every connected group of one colour. This project models that game in Dafny and
proves what its parts guarantee, each alone and together. `dafny verify dfyconfig.toml` checks all of it.

## How the model is laid out

| file | what it models |
|---|---|
| Options.dfy | a value that may be missing |
| Orders.dfy, Decimal.dfy | the sort order (an integer, then a name) and the 64-bit decimal text of a drop order |
| Kube.dfy | Pods and Nodes, cut down to the fields the game reads, and the two calls of a bind |
| Field.dfy | building the field from two unordered lists; gravity |
| FloodFill.dfy | the flood fill over a ragged board, with its mutable `visited` matrix and explicit stack |
| Controller.dfy | the erase and the spawn reconciler, the webhook, and the API server they write to |
| Passes.dfy | what the two reconcilers do, in terms of the fields of the Pods and Nodes they listed |
| Counters.dfy | the score over every interleaving of the reconcilers, with stale reads and conflicting writes |
| Cascade.dfy | whole chain reactions, with the kubelet in between |
| Versus.dfy | two players: the feed of pairs and the garbage sent across |
| Scheduler.dfy | the scheduler: its queue, its height checks, its binds, auto play, its table of bindings in flight |
| Inflight.dfy | at-most-once binding behind a lagging cache |
| Drops.dfy | when drops go through, and one turn of the scheduling loop |
| Heights.dfy | what drops and showers of garbage do to the heights, over whole runs |
| Placing.dfy | what the scheduler lists, accepts and binds, in terms of the fields of the Pods, the Nodes and the resource |
| FallingPair.dfy | the pair in the browser: fit, lift, move, turn with kicks, fall |
| Landing.dfy | from the grounded pair through the drop and its stamps to the rebuilt field |
| WakeUp.dfy | the capacity-one channels between cluster events, the loop and the event streams |
| Divergences.dfy | an input for each place where the code and its documentation part |
| Printer.dfy | the terminal picture, and a reader that gets the field's shape back |

Objects the source updates in place are classes (`Controller.Api`, `Scheduler.Scheduler`, `FallingPair.Browser`), the
flood fill marks real arrays, and the source's loops are loops. Each such method is tied to a function of its inputs or of
the old state, and the lemmas are about that function; for the main operations they say what it means in the fields of what
was read (`Passes`, `Placing`, `Fields.ColumnsByAge`, `FallingPair.TurnKeys` and the like). Protocols (reconcilers against the API server, the scheduler against
its cache, channels) are state machines whose theorems range over every run.

## Assumptions

- Pod names are unique within a namespace and never used again; a garbage Pod keeps its label; Node names are unique and
  not empty.
- One reconcile reads one list of Pods and one of Nodes, each complete as of some moment, which need not be now, and one
  version of the resource. What it then does is one step. A status write takes effect only on the version it read.
- Whole chains (`Cascade.ChainRun`, `ChainOutcome`, `ChainCanFinish`) are those whose passes read the current Pods and whose
  deletes succeed, on Nodes that stay the same.
- The Pods an informer cache shows are those of some past state of the API server, and it only moves forward. Where a
  theorem bounds its lag, the bound is the scheduler's own thirty seconds.
- The API server binds a Pod that has no Node and is not being deleted, and refuses any other. A failed call has no effect.
- Clock readings never go back. For landings, the clock is past every stamp already on a Node, and inside 64 bits.
- Random choices are arbitrary in-range functions; what the network does to each call is a parameter.

## Where the code and its documentation part

For each of these a lemma says exactly when one step keeps the promise, and Divergences.dfy has an input on which it does not.

- api/v1beta1/kbkb_types.go:14 says that in the phase GameOver spawning is stopped. Two things break that. An erase pass does
  not look at that phase, so an erasure takes the game out of it and spawning resumes (`Counters.GameOverExits` gives both
  ways out, exactly; `Divergences.GameOverIsLeft`). And a spawn pass creates its Pods without checking the version it read:
  while the game stays over, it adds Pods exactly when it read another version and passed every gate on that one
  (`Versus.SpawnsInGameOverIff`; `Divergences.StaleSpawnInGameOver`).
- api/v1beta1/kbkb_types.go:99 documents `chain` as the chain in progress. A game over keeps it positive exactly when it
  interrupts an unsettled erasure (`Counters.GameOverMidChain`; `Divergences.GameOverKeepsChain`). An erase pass lengthens
  it, and `maxChain` with it, whatever goes: some live Pod does exactly when the pass names one whose delete does not fail
  (`Cascade.ChainTakesPodsIff`; `Divergences.StaleListLengthensChain`). A pass that settles closes it, whatever is there: the
  chain goes on as a new one exactly when the Pods then there are stable and have something to erase
  (`Cascade.ChainClosesEarlyIff`; `Divergences.StaleListCutsChain`).
- api/v1beta1/kbkb_types.go:73-75 says the scheduler refuses to drop onto full columns. Garbage does not ask: a shower fills columns past the
  limit even when the cache shows everything, and keeps the limit exactly when the Nodes it draws have the room
  (`Heights.ShowerWithinIff`; `Divergences.GarbageOverfills`). A drop asks its cache: it overshoots by at most the Pods the
  cache does not show (`Heights.OvershootBounded`), and keeps the limit exactly when the Pods really there leave the room
  (`Heights.BurstWithinIff`; `Divergences.LaggingDropsOverfill`). What holds in every run whose drops see the Pods that are
  not garbage: a column overshoots by no more than the garbage on it (`Heights.HeightBound`).
- api/v1beta1/kbkb_types.go:107 documents `totalErased` as the number of erased Pods. It advances before the deletes, whose failures are only
  logged, and by what the list read shows: it matches the Pods lost exactly when no named delete fails and every named Pod
  is still live (`Cascade.CountMatchesIff`; `Divergences.FailedDeleteMiscounts`, `Divergences.StaleListMiscounts`).
- A drop does not check that its Pods differ: accepted on a caught-up cache, with calls that get through, it completes
  exactly when they do (`Drops.DropCompletesIffDistinct`; `Divergences.RepeatedPodStopsHalfway`).

## Model

| member | source | states |
|---|---|---|
| Orders.AscendingUnique | pkg/field/field.go:29-44 | a strictly sorted list is determined by its members |
| Orders.AnySortAgrees | pkg/field/field.go:29-44 | whatever algorithm sorts a list with distinct keys, from whatever order, the result is the same |
| Orders.BeforeDecided | pkg/field/field.go:29-44 | names compare at the first place where they differ; one that ends there comes first |
| Decimal.RoundTrip | pkg/field/field.go:99-106 | every 64-bit integer survives being printed and parsed |
| Decimal.DigitAt | internal/scheduler/scheduler.go:310-311 | the text of a number has its decimal places as digits and no leading zero |
| Decimal.SignIff | internal/scheduler/scheduler.go:310-311 | it has a sign exactly if the number is negative |
| Decimal.ReadsIff | pkg/field/field.go:99-106 | a text is a number exactly if it is digits, with a sign or not, within 64 bits |
| Decimal.WrapsAround | internal/scheduler/scheduler.go:310 | a sum beyond 64 bits wraps around |
| Fields.Field.MaxHeight | pkg/field/field.go:137-145 | the least bound on all column heights |
| Fields.AtIffBelowHeight | pkg/field/field.go:108-135 | a cell is there exactly below its column's height; there is nothing beyond the columns |
| Fields.SelectNodes | pkg/field/field.go:72-95 | the Nodes that match every label and are not excluded control planes, in list order |
| Fields.IndexColumns | pkg/field/field.go:46-51 | one empty column a Node; a repeated name maps to its last column |
| Fields.FillColumns | pkg/field/field.go:53-60 | each Pod is appended to the column of its Node, in order; Pods on no known Node are skipped |
| Fields.New | pkg/field/field.go:26-61 | the field is the sorted Nodes filled with the sorted Pods |
| Fields.FieldOfIsField | pkg/field/field.go:23-61 | columns are strictly ordered by creation and name, stacks by stack order and name, and hold exactly the Pods of their Node |
| Fields.ColumnsByAge | pkg/field/field.go:29-34 | columns run from the oldest Node to the youngest, by name among those of one age |
| Fields.StacksInOrder | pkg/field/field.go:38-44 | the lower of two stacked Pods has the lower drop order, or creation time if it has no readable one; by name if they are equal |
| Fields.Canonical | pkg/field/field.go:26-61 | there is only one such field for given sets of Pods and Nodes |
| Fields.ListOrderIsImmaterial | pkg/field/field.go:26-61 | any permutation of the input lists builds the same field |
| Fields.CellsHaveOwnNames | pkg/field/field.go:53-60 | no Pod has two cells |
| Fields.ShownIffOnKnownNode | pkg/field/field.go:53-60 | a Pod is on the field, in its resolved colour, if and only if it is listed and its Node is a column |
| Fields.Gravity | pkg/field/field.go:26-61 | deleting Pods and rebuilding equals taking them out of each column and keeping the rest in order |
| Fields.SurvivorsOnlyFall | pkg/field/field.go:26-61 | a survivor stays in its column and falls by exactly the number of Pods removed beneath it |
| FloodFill.Group | pkg/field/field.go:170-197 | from a closed `visited`, returns the whole connected group of the cell once each, marks exactly it, stays in range on ragged columns, terminates, and leaves `visited` closed |
| FloodFill.Visit | pkg/field/field.go:185-194 | one direction of the search keeps the frontier: only cells on the stack may have unseen neighbours |
| FloodFill.Erasable | pkg/field/field.go:147-168 | for every board and threshold, without duplicates, exactly the non-white cells whose group has at least `threshold` members |
| FloodFill.ComponentsAgree | pkg/field/field.go:170-197 | groups partition the field: every member of a group has that same group |
| FloodFill.ErasableIsWholeGroups | pkg/field/field.go:147-168 | groups are erased whole, so anything erasable means at least `threshold` erasable cells |
| FloodFill.ErasableAntitone | pkg/field/field.go:147-168 | a higher threshold erases less |
| FloodFill.ErasableNamesCount | pkg/field/field.go:147-168 | as many distinct Pod names are erased as cells |
| FloodFill.ErasableNameIsListed | pkg/field/field.go:147-168 | an erased name belongs to a listed, non-white Pod with a cell |
| Controller.NewKbkbPod | internal/controller/helpers.go:69-101 | the Pod asked for: managed, unscheduled, and for garbage labelled and explicitly white |
| Controller.Default | internal/webhook/pod_color_webhook.go:26-46 | a managed Pod without a colour gets a palette colour; any other Pod is left as it is |
| Controller.AdmissionTouches | internal/webhook/pod_color_webhook.go:26-46 | the webhook touches a Pod if and only if it is labelled managed and has no colour, and then only its colour, from the palette |
| Controller.AdmissionColors | internal/webhook/pod_color_webhook.go:26-46 | spawned Pods get an erasable colour from the webhook and stay white without it; garbage passes unchanged and white |
| Controller.Api.UpdateStatus | internal/controller/kbkb_controller.go:120-122 | a status write takes effect, and advances the version, only on the version it read |
| Controller.Api.Delete | internal/controller/kbkb_controller.go:125-131 | a delete marks the Pod terminating, and only it; a missing Pod is no error |
| Controller.BuildField | internal/controller/helpers.go:22-51 | the field of the scheduled Pods on the selected Nodes, and the unscheduled Pods |
| Controller.Settle | internal/controller/kbkb_controller.go:73-102 | closes the chain, counts an all-clear exactly when nothing is on the field or waiting, resets a cleaned-up game over, leaves an idle game alone |
| Controller.Erase | internal/controller/kbkb_controller.go:104-134 | the status first; on a conflict nothing else, otherwise the named Pods terminate save failed deletes, and garbage is sent |
| Controller.SendOjama | internal/controller/kbkb_controller.go:136-165 | the garbage created at the opponent's, up to the first refused create |
| Controller.CreatePods | internal/controller/spawn_controller.go:75-85 | the Pods created, each admitted by the webhook, up to the first refused create |
| Controller.Reconcile | internal/controller/kbkb_controller.go:35-71 | waits on an unstable field, settles when nothing is erasable, erases otherwise, whatever was read and whatever is current |
| Controller.ErasesEnough | internal/controller/kbkb_controller.go:48-57 | an erasure counts at least the effective kokeshi |
| Controller.SpawnReconcile | internal/controller/spawn_controller.go:31-89 | holds, ends the game or creates a pair, whatever was read and whatever is current |
| Passes.StableIffCalm | pkg/field/pod.go:38-53 | the field is stable if and only if every Pod on a selected Node runs, has all its containers ready and is not being deleted |
| Passes.LinkedIff | pkg/field/field.go:173-194 | two cells are of one group directly if and only if they are next to each other and their Pods carry the same colour annotation, not empty and not white |
| Passes.ErasedAreColored | pkg/field/pod.go:58-65 | an erased Pod is on a selected Node and carries a colour annotation, not empty and not white |
| Passes.PassWaits | internal/controller/kbkb_controller.go:60-71 | while a Pod on a selected Node has not settled, an erase pass does nothing |
| Passes.PassConflicts | internal/controller/kbkb_controller.go:120-122 | an erase pass that read an old version does nothing |
| Passes.PassSettles | internal/controller/kbkb_controller.go:73-102 | with nothing to erase, an erasing game goes idle, with an all-clear if and only if no listed Pod waits or is on a selected Node; a finished game starts from zero exactly then and is left alone otherwise; an idle game is left alone |
| Passes.PassErases | internal/controller/kbkb_controller.go:104-160 | with something to erase, the chain grows or starts at 1, the score by the cells; the Pods of those cells terminate, save failed deletes, and no other; the garbage is erased Pods by rate, 2 if below 1, for an opponent that is someone else |
| Passes.PassEndsGameIff | internal/controller/spawn_controller.go:39-73 | a spawn pass writes GameOver if and only if it read the current version, spawning is on, no game over yet, no Pod waits, the field has settled with nothing to erase, game overs are on, and a selected Node holds maxHeight Pods, 12 if that is below 1 |
| Passes.PassSpawns | internal/controller/spawn_controller.go:39-85 | with the same gates open and the game not over it creates pair Pods, 2 if that is below 1, up to the first refused create; otherwise none |
| Counters.CountersHold | internal/controller/kbkb_controller.go:75-121 | over every interleaving with stale reads and spec edits, k at most each kokeshi: idle means chain 0, erasing means chain at least 1, chain <= maxChain, k maxChain <= totalErased, k allClears <= totalErased with k to spare while erasing |
| Counters.FreshIsSound | internal/controller/kbkb_controller.go:48-51 | a new resource starts such a run, with k = 2 or its own kokeshi |
| Counters.CountersFallOnlyOnReset | internal/controller/kbkb_controller.go:85-93 | maxChain, totalErased and allClears fall only when an erase pass finds a game over cleaned up, and then all start from zero |
| Counters.GameOverExits | internal/controller/kbkb_controller.go:85-112 | a game over is left if and only if an erase pass on the current version resets it or erases |
| Counters.GameOverMidChain | internal/controller/spawn_controller.go:67-72 | a game over is declared with a positive chain if and only if it interrupts an unsettled erasure |
| Cascade.LiveBoard | internal/controller/kbkb_controller.go:60-71 | with nothing on the field being deleted, the field is that of the live Pods, running state aside |
| Cascade.StripErasable | pkg/field/field.go:147-168 | nor does what it erases |
| Cascade.StableMeansNoneDying | internal/controller/kbkb_controller.go:60-71 | a stable field means that no Pod on it is being deleted; waiting Pods, and Pods on other Nodes, may be |
| Cascade.DoomedCount | internal/controller/kbkb_controller.go:52-57 | an erasure names as many Pods as cells, at least kokeshi if any |
| Cascade.CountMatchesIff | internal/controller/kbkb_controller.go:114-131 | whatever list was read and whatever is there when it writes, totalErased grows by exactly the live Pods lost if and only if no named delete fails and every named Pod is still live |
| Cascade.CountMatchesIffNoDeleteFails | internal/controller/kbkb_controller.go:114-131 | on a current list that comes down to the failed deletes |
| Cascade.StaleListCountsAgain | internal/controller/kbkb_controller.go:114-131 | a list that still shows what an erasure deleted counts it again, and lengthens the chain, though no delete fails and no live Pod goes |
| Cascade.ChainTakesPodsIff | internal/controller/kbkb_controller.go:106-131 | an erase pass adds one to the chain whatever was read and whatever is there; a live Pod goes if and only if it names one whose delete does not fail |
| Cascade.ChainClosesEarlyIff | internal/controller/kbkb_controller.go:75-101 | a settling pass ends the chain at 0 whatever list it read; a fresh pass then starts a chain of 1 if and only if the current Pods are stable and have something to erase |
| Cascade.RoundsBound | internal/controller/kbkb_controller.go:48-57 | rounds times kokeshi is at most the Pods erased, and what is left has no group to erase |
| Cascade.ChainRun | internal/controller/kbkb_controller.go:104-134 | in any run of one chain whose passes read the current Pods and whose deletes succeed, with any kubelet moves and idle passes in between, the live Pods after m erasures are those the first m rounds leave of the starting Pods, totalErased grows by the Pods lost, at least m times kokeshi, chain grows by m and maxChain follows |
| Cascade.ChainOutcome | internal/controller/kbkb_controller.go:73-134 | when such a chain settles, its length, what it erased and what it left depend only on the starting Pods; the settling pass keeps maxChain and zeroes chain |
| Cascade.ChainCanFinish | internal/controller/kbkb_controller.go:60-71 | while live Pods stay healthy, every such chain has a finite run that settles it |
| Versus.CreatedPods | internal/controller/helpers.go:95-99 | created garbage is labelled, white, unscheduled and not deleted |
| Versus.GarbageNotNamed | pkg/field/field.go:173-178 | an erase pass names no Pod that is white in the list it reads |
| Versus.NowGarbageNotNamed | pkg/field/field.go:173-178 | nor any Pod that is garbage now, whatever spec and however old a list it reads |
| Versus.RunKeeps | internal/controller/kbkb_controller.go:125-131 | in every run of two players, with spec edits and Pods deleted by hand, whatever versions, lists and Nodes the reconcilers read, garbage that nobody deletes by hand stays listed under its name, white and undeleted, and names stay unique |
| Versus.NoEraseActNamesGarbage | internal/controller/kbkb_controller.go:125-131 | after any such run, no erase pass of any spec, on any list there has been, names a garbage Pod |
| Versus.FeedBound | internal/controller/spawn_controller.go:49-52 | in every such run whose spawn passes read the current list, of whatever version of the resource, no more Pods wait, garbage aside, than the largest pair any spec has asked for |
| Versus.PairsPassTheGate | internal/controller/spawn_controller.go:39-85 | more Pods wait only after a spawn pass; the version it read had spawning enabled and no game over, and the list it read showed nothing waiting, a stable field, nothing erasable and no column at the limit (unless disabled) |
| Versus.SpawnsInGameOverIff | internal/controller/spawn_controller.go:39-85 | while the game is over, a spawn pass whose first create goes through adds Pods if and only if it read another version and passed every gate on that one |
| Versus.GarbageOnlyToOpponent | internal/controller/kbkb_controller.go:137-149 | garbage is sent if and only if a different, named opponent is set and a whole rate's worth was erased |
| Versus.GarbageConserved | internal/controller/kbkb_controller.go:133-160 | in every such run, if all creates succeed and every erasure read a resource set against the opponent at rate r, m erasures of E Pods give the opponent G with r G <= E <= r G + (r - 1) m |
| Scheduler.Scheduler.constructor | internal/scheduler/scheduler.go:49-113 | the defaults, and an empty table |
| Scheduler.Scheduler.SetMode | internal/scheduler/scheduler.go:183-193 | only the two known modes are taken, and taking one wakes the loop |
| Scheduler.Scheduler.Pending | internal/scheduler/scheduler.go:195-225 | queue and garbage of the cache, minus the table |
| Scheduler.QueueFacts | internal/scheduler/scheduler.go:195-225 | the queue holds exactly the Pods on offer, once each, in order |
| Placing.PendingInOrder | internal/scheduler/scheduler.go:203-225 | queue and garbage are the cached Pods of this scheduler with no Node, not being deleted and not in the table, told apart by the label, each once, oldest first and by name among those of one age |
| Scheduler.Scheduler.BuildFieldFor | internal/scheduler/scheduler.go:227-248 | the cached field on the Nodes the resource selects, or all |
| Scheduler.Scheduler.Check | internal/scheduler/scheduler.go:276-297 | the first reason to refuse, judging in order and counting earlier placements |
| Scheduler.ValidateIffAcceptable | internal/scheduler/scheduler.go:276-297 | validation passes if and only if every Pod is queued, every Node known, and no column that gets Pods ends above the limit |
| Placing.DropRules | internal/scheduler/scheduler.go:250-306 | a drop is bound in order if and only if it is not empty, every Pod is in the queue, every Node is a column, and none ends above the resource's own maxHeight, or the scheduler's if that is not set; otherwise it changes nothing, and its error names a Pod, Node or column really at fault |
| Placing.DropWithinLimit | internal/scheduler/scheduler.go:250-306 | after a drop on a cache that shows every Pod, no Node it used holds more Pods than the resource's own maxHeight, or the scheduler's if that is not set |
| Placing.TargetIff | internal/scheduler/scheduler.go:227-248 | the columns of a drop are the Nodes the resource selects by label, or all Nodes if there is no resource |
| Scheduler.Scheduler.Bind | internal/scheduler/scheduler.go:308-326 | stamps clock plus position, binds, enters the table; a failed call ends it there |
| Scheduler.BindSucceedsIff | internal/scheduler/scheduler.go:308-326 | it succeeds if and only if both calls get through and the API server's Pod has no Node and is not being deleted |
| Scheduler.Scheduler.BindEach | internal/scheduler/scheduler.go:299-303 | binds in order up to the first failure |
| Scheduler.Scheduler.Drop | internal/scheduler/scheduler.go:259-306 | judged on the cache before anything is bound; refused, it changes nothing; accepted, it binds in order; completed, it wakes the loop |
| Scheduler.Scheduler.PickColumn | internal/scheduler/scheduler.go:391-403 | some candidate column, empty exactly if there is none |
| Placing.CandidateIff | internal/scheduler/scheduler.go:391-403 | when forced, any column may be drawn, otherwise exactly those below the limit |
| Scheduler.Scheduler.DropOjama | internal/scheduler/scheduler.go:328-350 | binds the garbage to drawn columns, full or not, up to the first failure; a shower that completes wakes the loop |
| Placing.ShowerRule | internal/scheduler/scheduler.go:328-350 | a shower asks for every garbage Pod that waits, in order, each on a column, full or not, stamped by the clock alone |
| Scheduler.Scheduler.Plan | internal/scheduler/scheduler.go:366-387 | for every source of randomness, a plan names the given Pods and leaves every column within the limit; there is none only if ten draws in a row miss, or all columns are full |
| Placing.NeverGivesUp | internal/scheduler/scheduler.go:366-387 | there is a plan whatever is drawn if some column has room and every column with room has room for the pair |
| Scheduler.Scheduler.AutoDrop | internal/scheduler/scheduler.go:352-389 | on a stable field with a whole pair queued it does the drop of a plan that passes the drop's validation; it does nothing only without these, or without a plan |
| Placing.AutoRules | internal/scheduler/scheduler.go:352-389 | an automatic move on a stable field drops the front of the queue, as many Pods as a pair has, in order, and keeps the rules of a drop; it does nothing only without a whole pair, on a moving field, or without a plan |
| Placing.TenMisses | internal/scheduler/scheduler.go:369-384 | there is no plan only if every column is full, or ten draws in a row hit columns without room for the pair |
| Scheduler.Scheduler.PruneInflight | internal/scheduler/scheduler.go:414-424 | keeps exactly the entries the cache still shows unbound, for at most thirty seconds |
| Placing.PrunedIff | internal/scheduler/scheduler.go:414-424 | an entry stays if and only if the cache shows its Pod without a Node, and it is at most thirty seconds old |
| Inflight.FreshIsSound | internal/scheduler/scheduler.go:101-113 | a scheduler that has just started satisfies the binding invariant, and starts such runs as below |
| Inflight.BoundNotOffered | internal/scheduler/scheduler.go:203-209 | a Pod that was bound is never on offer again |
| Inflight.BurstSound | internal/scheduler/scheduler.go:299-326 | any burst of binds of Pods once on offer keeps the invariant, wherever it fails, even if it repeats one |
| Inflight.PruneSound | internal/scheduler/scheduler.go:414-424 | so does pruning, with the cache less than thirty seconds behind |
| Inflight.DeliverSound | internal/scheduler/scheduler.go:196-225 | so does the cache catching up |
| Inflight.AtMostOnce | internal/scheduler/scheduler.go:196-225 | over every run of drops, showers and pruning, overlapping or not, with the cache and the cluster moving between any two binds, each Pod is bound at most once and no bound Pod is pending again |
| Drops.DropMayStart | internal/scheduler/scheduler.go:276-303 | an accepted drop asks only for Pods on offer, on real Nodes: it is a burst of the runs above |
| Drops.ShowerMayStart | internal/scheduler/scheduler.go:328-350 | so is a shower of garbage |
| Drops.DropFollows | internal/scheduler/scheduler.go:252-306 | any drop, whatever it asks for and however far it gets, keeps the binding invariant and only adds to the history |
| Drops.Tick | internal/scheduler/scheduler.go:162-174 | one turn prunes the table, then showers the garbage, then in auto mode does an automatic move, and in manual mode nothing; its shower logs garbage only; the binding invariant is kept and the history only grows |
| Drops.BurstGoesThrough | internal/scheduler/scheduler.go:299-326 | with calls that get through, a burst of bindable Pods completes if and only if they differ |
| Drops.DropCompletesIffDistinct | internal/scheduler/scheduler.go:285-303 | an accepted drop on a caught-up cache completes if and only if its Pods differ |
| Drops.RefusedDropBindsNothing | internal/scheduler/scheduler.go:285-297 | an empty or unacceptable drop changes nothing and reports an error |
| Heights.BoardHeights | internal/scheduler/scheduler.go:280-283 | the heights a drop works with are the numbers of Pods on the Nodes |
| Heights.DropKeepsWithin | internal/scheduler/scheduler.go:261-306 | a drop whose cache shows every Pod on its Node keeps every column within the limit, even if it stops half way; one whose cache lacks only garbage does so for the Pods that are not garbage |
| Heights.CompleteBurstHeights | internal/scheduler/scheduler.go:299-303 | a completed burst raises each Node by exactly what was put on it, whatever the cache showed |
| Heights.BurstWithinIff | internal/scheduler/scheduler.go:299-303 | a completed burst keeps every column within the limit if and only if the Pods really there leave room on each Node it uses |
| Heights.ShowerWithinIff | internal/scheduler/scheduler.go:328-350 | on a caught-up cache a shower completes, and keeps the limit if and only if each drawn Node has that much room |
| Heights.ShowerAddsGarbage | internal/scheduler/scheduler.go:338-347 | a shower adds nothing but garbage to any Node, on however old a cache |
| Heights.OvershootBounded | internal/scheduler/scheduler.go:280-283 | however far the cache lags, a drop overshoots by at most the Pods not shown yet |
| Heights.HeightBound | internal/scheduler/scheduler.go:252-350 | in every run of drops, by hand or by auto play, whose cache shows the Pods that are not garbage, and of showers at any time, each column holds at most the limit in Pods that are not garbage: it overshoots by no more than its garbage |
| Heights.ShelteredBound | internal/scheduler/scheduler.go:252-350 | if those drops see garbage too, and showers find room where they fall, no column ever passes the limit |
| FallingPair.Browser.SyncPair | internal/scheduler/web/app.js:139-148 | a new pair starts above the middle; any pair is raised row by row until it fits or the guard runs out |
| FallingPair.SyncFits | internal/scheduler/web/app.js:139-148 | with no column above the limit, a pair inside the grid ends up fitting, lifted by the least number of rows that helps |
| FallingPair.LiftClears | internal/scheduler/web/app.js:146-147 | a pair inside the grid can be lifted clear before the guard runs out |
| FallingPair.SyncStarts | internal/scheduler/web/app.js:139-148 | a new pair starts upright over the middle, in the first row above the limit, a known one where it is; each is raised by the least number of rows that makes it fit |
| FallingPair.PairInPlay | internal/scheduler/web/app.js:100-102 | the pair is the first two queued Pods that are not garbage |
| FallingPair.FitsIff | internal/scheduler/web/app.js:116-137 | a pair fits if and only if its pivot's cell and the one above, right of, below or left of it are inside the grid and above the stacks |
| FallingPair.Browser.TryMove | internal/scheduler/web/app.js:150-155 | moves exactly when the target fits |
| FallingPair.Browser.TryRotate | internal/scheduler/web/app.js:157-196 | the turn with its kicks, in the source's order |
| FallingPair.RotationFits | internal/scheduler/web/app.js:157-196 | any turn or kick keeps the pair fitting, with its pivot at most one cell away |
| FallingPair.UprightNeverBlocked | internal/scheduler/web/app.js:180-194 | turning upright always works when no column exceeds the limit |
| FallingPair.FlatBlockedIff | internal/scheduler/web/app.js:167-179 | turning flat fails if and only if both sides are blocked and there is no one-step ledge |
| FallingPair.FitsDownToRest | internal/scheduler/web/app.js:130-137 | below a fitting place exactly the rows down to the rest row fit |
| FallingPair.Browser.HardDrop | internal/scheduler/web/app.js:202-206 | any pair, fitting or not, falls until the row below does not fit: the guard never cuts the fall short |
| FallingPair.FallenRests | internal/scheduler/web/app.js:202-206 | a fitting pair lands on its rest row, still fitting |
| FallingPair.Browser.SoftDrop | internal/scheduler/web/app.js:198-200 | one row down, or locks exactly when grounded |
| FallingPair.Browser.KeyDown | internal/scheduler/web/app.js:341-371 | every key syncs, then acts; it locks exactly for a hard drop, or a soft drop of a grounded pair, and leaves the locked pair grounded |
| FallingPair.InPlayIff | internal/scheduler/web/app.js:104-114 | keys act exactly while the game is operable and two queued Pods are not garbage |
| FallingPair.MoveKeys | internal/scheduler/web/app.js:341-367 | left, right and down move both cells by one if they are clear there; otherwise the pair stays |
| FallingPair.TurnKeys | internal/scheduler/web/app.js:157-196 | the satellite goes round clockwise or the other way; laid flat, the pair turns in place, climbs one step, or moves over; stood up, it turns in place or gives way one row |
| FallingPair.SessionFits | internal/scheduler/web/app.js:139-206 | in every session of states and keys on a grid of fixed size with no column above the limit, each event with a pair in play leaves both cells inside the grid and above the stacks |
| FallingPair.Browser.ValidDrop | internal/scheduler/web/app.js:217-224 | true if and only if no column that gets a Pod ends above the limit |
| Landing.BindLands | internal/scheduler/scheduler.go:308-326 | a bind stamped past every key tops exactly its Node's column |
| Landing.StampsClimb | internal/scheduler/scheduler.go:310 | clock plus position climbs strictly along a drop |
| Landing.BurstLands | pkg/field/field.go:38-59 | a burst tops the columns with its Pods in the order asked |
| Landing.DropLands | internal/scheduler/scheduler.go:259-313 | on a caught-up cache, an accepted drop of distinct Pods whose calls get through completes, and the rebuilt field is the old columns with those Pods on top, in order |
| Landing.PairIsQueueFront | internal/scheduler/web/app.js:100-102 | the browser's pair is the front of the scheduler's queue |
| Landing.HeightChecksAgree | internal/scheduler/web/app.js:217-224 | if the browser shows the scheduler's current state, then for the pair in play the browser's check passes if and only if the scheduler's validation does |
| Landing.LockedPairLands | internal/scheduler/web/app.js:208-215 | if the browser shows the scheduler's current state, and that is on a caught-up cache, a grounded pair that passes the browser's check lands: upright on the displayed cells in either order, flat each on its own column; nothing else moves |
| WakeUp.RunKeepsInv | internal/scheduler/scheduler.go:153-160 | in every run, after the last poke a tick has started or is owed, and after the last broadcast each subscriber's send has started or is owed |
| WakeUp.TickFollowsPoke | internal/scheduler/scheduler.go:140-160 | in every run, any three steps of the loop after a poke, timer included, start a tick that comes after it |
| WakeUp.LoopNotStuck | internal/scheduler/scheduler.go:140-160 | while a tick is owed the loop can always take a step other than waiting for its timer |
| WakeUp.SendFollowsBroadcast | internal/scheduler/server.go:60-91 | in every run, any three steps of a stream after a broadcast, heartbeats aside, start a send that comes after it, for every subscriber that stays, including one that has just subscribed |
| WakeUp.StreamNotStuck | internal/scheduler/server.go:60-91 | while a send is owed the stream can take such a step, or the broadcast can still offer it a token |
| WakeUp.QuietMeansCaughtUp | internal/scheduler/scheduler.go:427-448 | with no token and everyone at rest, nothing was missed |
| Divergences.GameOverIsLeft | internal/controller/kbkb_controller.go:106-112 | a game over with four equal neighbours on the field is left for Erasing |
| Divergences.StaleSpawnInGameOver | internal/controller/spawn_controller.go:39-85 | the version before a game over and an empty list: two Pods are created and the game stays over |
| Divergences.GameOverKeepsChain | internal/controller/spawn_controller.go:67-72 | an erasure not yet settled and a full column with nothing erasable: a game over with a positive chain |
| Divergences.FailedDeleteMiscounts | internal/controller/kbkb_controller.go:114-131 | one failed delete: four Pods are counted and four do not go |
| Divergences.StaleListMiscounts | internal/controller/kbkb_controller.go:114-131 | no failed delete, but a list read again: the same four Pods are counted twice |
| Divergences.StaleListLengthensChain | internal/controller/kbkb_controller.go:106-112 | the list read again makes chain and maxChain 2 with nothing more lost |
| Divergences.StaleListCutsChain | internal/controller/kbkb_controller.go:75-101 | a list from before the four were complete closes a chain of 1; the next pass erases them as another chain of 1 |
| Divergences.GarbageOverfills | internal/scheduler/scheduler.go:340 | one full column, one garbage Pod, a cache that shows both: the column ends above the limit, whatever is drawn |
| Divergences.LaggingDropsOverfill | internal/scheduler/scheduler.go:280-297 | two drops before the cache shows the first: both are accepted and complete, and the column ends above the limit |
| Divergences.RepeatedPodStopsHalfway | internal/scheduler/scheduler.go:285-303 | a drop of one Pod listed twice is accepted, binds it, and fails |
| Printer.Render | pkg/printer/printer.go:69-86 | the rows top first, walls and floor, of the field's picture |
| Printer.TokensDiffer | pkg/printer/printer.go:57-67 | no Pod's icon begins another's |
| Printer.BothSetsLegible | pkg/printer/printer.go:31-55 | both character sets can be told apart by first character |
| Printer.PictureReads | pkg/printer/printer.go:69-86 | any picture reads back as itself |
| Printer.RenderingReads | pkg/printer/printer.go:69-86 | the reader recovers the column count and every row of any field |
| Printer.RenderingDetermines | pkg/printer/printer.go:69-86 | two fields are rendered alike if and only if they agree on column count, heights, stability and colour codes, cell by cell |
| Printer.RenderingLines | pkg/printer/printer.go:95-102 | a rendering has one line more than the tallest column has Pods |
| Printer.CodesSeparatePalette | pkg/printer/printer.go:12-18 | codes separate the five palette colours; all others share one |
| Printer.CodesOfColors | pkg/printer/printer.go:12-18 | the code of each of the five colours, and 0 for any other |
| Printer.PictureAt | pkg/printer/printer.go:57-86 | each row from the floor and column shows its Pod's code, as settled exactly if it runs, is ready and is not being deleted, or a blank |

## Left out

- Heights.HeightBound: assumes each drop's cache shows the Pods that are not garbage on their Nodes, since the code judges by the cache alone; `Heights.BurstWithinIff` and `Heights.OvershootBounded` say what holds without that.
- Versus.RunKeeps: garbage deleted by hand, and Pods created by anyone but the reconcilers, are not in its runs.
- Versus.FeedBound: a spawn pass that reads an old list may create a second pair, so its spawn passes read the current one.
- Cascade.ChainRun: passes on an old list and deletes that fail are left out of whole chains; `Cascade.ChainTakesPodsIff`, `Cascade.ChainClosesEarlyIff` and `Cascade.CountMatchesIff` say what one such pass does.
- Scheduler.Scheduler.constructor: `Rand` and `Now` are parameters of the methods that use them.
- Inflight.AtMostOnce: a bind and its entry in the table are one step, so a listing between the two is not modelled, nor is a bind that takes effect although its call reported failure.
- Landing.DropLands: a drop is one step, with nothing else happening between its binds; so it is in the runs of `Heights.HeightBound`.
- Drops.Tick: the Nodes, the Kbkb resource and the cache are read once for the whole turn.
- Fields.New: equal sort keys need equal names, so the order `sort.Slice` gives ties is not modelled.
- Scheduler.Scheduler.AutoDrop: Nodes with equal names are not modelled here; whether ten random tries find room is left open.
- FallingPair.SyncFits: it is for a pair inside the grid and columns within the limit; a shrinking set of columns can leave a pair that never fits.
- The browser's gate `operable`, with its flag for a drop in progress, is an input; tooltips, banners, drawing and the event log are not modelled.
- Kubernetes client calls, informers, watches, events, metrics, logging, leader election: reads, conditional writes, creates, deletes and binds stand for them.
- HTTP routing, JSON, and the event-stream encoding.
- Score counters and timestamps are unbounded integers; only the stamp, which the code wraps and prints, has its 64 bits.
- Names are compared by code point, which is Go's order on the ASCII names Kubernetes allows.
- A phase text the code does not know is treated like the empty one.
- `HashColor`, `manifestSnippet`, the overwriter's escape sequence, command-line wiring, generated code and manifests.
