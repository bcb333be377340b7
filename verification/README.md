# Verified models of the server's state machines

This project models the parts of the game server (C++, a Forgotten Server derivative) that are state
machines of their own, and proves what holds of them on every input, in every run or in every
reachable state. The OTB loader, the container forest, the decay scheduler, the database worker
queue, a connection's write pipeline, the connection rate limiter, the retrying transactions with
the coin, auction, reward and charm ledgers above them, the Echo Raid tables, and damage-over-time
conditions with their byte codec each have their modules:

| component | modules |
|---|---|
| OTB tree files (`src/fileloader.cpp`) | `OtbFormat`, `OtbParser`, `OtbLoader`, `OtbRoundTrip` |
| containers (`src/container.cpp`) | `ContainerForest`, `ContainerOps`, `ContainerRuns`, `ContainerEffects`, `ContainerHistory`, `ContainerStore`, `ContainerLoading` |
| decay (`src/decay.cpp`) | `DecayModel`, `DecayTracking`, `DecayTimers`, `DecayManager` |
| database worker (`src/databasetasks.cpp`) | `DatabaseTasks` |
| connections (`src/connection.cpp`) | `ConnectionPipeline`, `ConnectionCounts` |
| rate limiter (`src/connection_rate_limiter.cpp`) | `RateLimiter`, `RateLimiterBursts` |
| transactions (`src/database.h`) and coins (`src/account_coins.cpp`) | `Transactions`, `AccountCoins` |
| auctions (`src/character_bazaar.cpp`) | `CharacterBazaar`, `AuctionFailures` |
| Echo Raids and Warden rewards (`src/echo_raid.cpp`) | `EchoRaids`, `WardenRewards` |
| charms (`src/bestiary_charm.cpp`) | `CharmLedger`, `CharmRuns`, `CharmAnswers` |
| conditions (`src/condition.cpp`, `src/fileloader.h`) | `DamageOverTime`, `DamageTicks`, `DamageCondition`, `PropStreams`, `ConditionCodec`, `ConditionFormat`, `ConditionStreams` |

`dafny verify dfyconfig.toml` checks everything.

Where the source updates an object in place there is a class (`Loader`, `Store`, `Decay`, `Queue`,
`Connection`, `ConnectionManager`, `ConnectionRateLimiter`, `DBTransaction`, `EchoRaidManager`,
`ConditionDamage`, the two streams) whose methods are proved equal to functions on values; the results
over whole runs are lemmas about those functions. What one operation does is stated besides in the fields
of the state, without naming the function that computes it. Concurrent code is a machine of atomic steps, one
for each region under a lock, and the lemmas speak of every interleaving.

## What is not true of the code

Some promises fail. Each has the exact condition under which it holds, and a concrete failing case.

- A rolled damage total exceeds the drawn amount when start + ... + 1 is larger
  (`DamageOverTime.ExactIff`, `DamageOverTime.DefaultStartExactIff`: the first amount it happens for by
  default is 761), and hits can be lost at the end of a condition whose interval is not a multiple of the
  execution interval (`DamageTicks.AllLandIff`, `DamageTicks.HitLostHappens`).
- A decay callback that restarts an item which is still waiting in the batch makes it decay at once
  (`DecayModel.HandOverEarlyIff`, `DecayModel.EarlyHandOverHappens`).
- A write error during a graceful close does not shut the socket: `closeLocked` returns at once on a
  connection already marked closed. The socket stays open until the pending read ends and the destructor
  runs; a read timeout does not end it, because it calls the same `closeLocked`
  (`ConnectionPipeline.LeakIff`, `ConnectionPipeline.LeakEndsIff`, `ConnectionPipeline.LeakHappens`).
- The comment at `src/connection_rate_limiter.cpp:78-82` says that a blocked address is evicted last.
  The code orders the index by the last counted attempt only, because no block outlives the lifetime of
  an entry, so enough other addresses do flush a block (`RateLimiter.EvictedExactly`,
  `RateLimiter.BlockBrokenIff`, `RateLimiter.CeilingTakesBlocked`). The model follows the code.
- A SELECT that fails is read as "no rows", and one that is a deadlock victim ends the transaction
  unnoticed. A creation that answers false can thereby take the fee, and can leave a live auction, even
  an account's second one; and one that answers true can make a second one as well
  (`AuctionFailures.CreateWholeIff`, `AuctionFailures.CreateBreaksIff`, `AuctionFailures.FeeLostHappens`,
  `AuctionFailures.AuctionLeftHappens`, `AuctionFailures.SecondAuctionHappens`).
- In the charm ledger a failed SELECT can lose what was spent, wipe the charm rows through a restore, or
  overwrite the echo balance (`CharmRuns.EventIff`, `CharmRuns.ResetLosesCharms`,
  `CharmRuns.AddingLosesEchoes`). A cache filled by a failed SELECT misses the player's charms
  (`CharmRuns.FilledIff`, `CharmRuns.CacheMissesCharms`).
- A saved light condition is not loaded, and nothing behind it in the list is: color and level are
  written as 32-bit words and read as bytes (`ConditionCodec.ListCompleteIff`,
  `ConditionCodec.LightLosesTheRest`). A saved outfit comes back shifted, because the familiar is not
  written (`ConditionCodec.OutfitKeptIff`, `ConditionCodec.OutfitShifts`).
- A constant damage condition with pending hits does not get its saved end time back, and ticks that sum
  up to -1 on the way stay there (`ConditionCodec.EndTimeKeptIff`, `ConditionCodec.EndTimeChanges`,
  `ConditionCodec.DamageTicksIff`, `ConditionCodec.TicksStick`).

## Model

| member | source | states |
|---|---|---|
| `OtbParser.StartSimulates` | src/fileloader.cpp:57-71 | Opening a node on the loader's tree and pointer stack does what opening a frame does in the reference reading. |
| `OtbParser.EndSimulates` | src/fileloader.cpp:72-79 | The same for closing a node, including the close of the root. |
| `OtbParser.RepresentsSpine` | src/fileloader.cpp:52-79 | In every state the loop can reach, each stack entry is the last child of the one below it. |
| `OtbParser.AppendMovesNoOpenNode` | src/fileloader.cpp:58-69 | So the append at the top of the stack reallocates no node that a stack entry points to. |
| `OtbLoader.Loader.ParseTree` | src/fileloader.cpp:14-96 | For all bytes, the stack loop returns exactly what the recursive reference reading returns, and rejects exactly the files it rejects. |
| `OtbParser.LoadsIff` | src/fileloader.cpp:14-96 | A file loads if and only if it is longer than seven bytes, has the accepted identifier or four zeros and a start marker, and its markers are balanced: every opened node is closed, nothing opens or closes outside the root, and no marker or escape is cut off. |
| `OtbLoader.Loader.GetProps` | src/fileloader.cpp:98-146 | For every range, adjacent escapes and a trailing lone escape included, the run-copying loop yields the byte-by-byte unescape, inside a buffer of the size of the range; without an escape the view is the range and the buffer is untouched. |
| `OtbLoader.MemChr` | src/fileloader.cpp:107-137 | First position of a byte in a range, or none. |
| `OtbLoader.CleanRun` | src/fileloader.cpp:123-124 | A range reads as itself up to its first escape, which is why runs may be copied in bulk. |
| `OtbRoundTrip.RoundTrip` | src/fileloader.cpp:43-146 | Printing any tree with the escape rule and loading it gives back exactly that tree, if and only if the root has properties or children; otherwise the file has the minimal size and is rejected. |
| `OtbRoundTrip.ScanTree` | src/fileloader.cpp:55-90 | Reading one printed tree adds its layout as a child of the innermost open node, whatever surrounds it. |
| `OtbRoundTrip.LayoutContent` | src/fileloader.cpp:55-146 | The byte ranges found for a printed tree lie in the file and read back as the tree. |
| `OtbRoundTrip.UnescapeEscape` | src/fileloader.cpp:113-142 | Unescaping undoes escaping. |
| `OtbRoundTrip.ParsedInFile` | src/fileloader.cpp:43-96 | Whatever file loads at all, every property range of every node is closed and inside the file, which is what getProps needs. |
| `ContainerForest.PileIsProduct` | src/item.cpp:1189-1196 | The weight of a pile is its base weight times the number of pieces. |
| `ContainerForest.AddAlongRepairs` | src/container.cpp:236-247 | If exactly one container's cache is off by d, adding d along its chain of parents makes the cached weight right at every level. |
| `ContainerOps.AncestorWalkExact` | src/container.cpp:495-501 | Putting x into c keeps the parent relation acyclic if and only if x is neither c nor around c, which is what the walk in queryAdd tests. |
| `ContainerRuns.AddThingKeeps` | src/container.cpp:711-752 | addThing and addItemBack keep links, acyclicity, cached weights and ammunition counts. |
| `ContainerRuns.UpdateThingKeeps` | src/container.cpp:754-778 | So does updateThing, for any change of type and count. |
| `ContainerRuns.ReplaceThingKeeps` | src/container.cpp:797-833 | So does replaceThing; the replaced item ends up outside. |
| `ContainerRuns.RemoveThingKeeps` | src/container.cpp:835-881 | So does removeThing, for part of a pile and for a whole item. |
| `ContainerEffects.AddThingPutsIn` | src/container.cpp:711-752 | Caches aside, an insertion lists the item at its position, makes the container its parent, and changes nothing else. |
| `ContainerEffects.UpdateThingUpdates` | src/container.cpp:754-771 | An update sets type and, except for fluids and charges, the count; nothing else. |
| `ContainerEffects.ReplaceThingReplaces` | src/container.cpp:797-833 | The new item takes the place of the old one, which ends up nowhere; the other entries stay. |
| `ContainerEffects.RemoveThingTakesAway` | src/container.cpp:850-876 | Of a pile of n pieces n - removed are left where it is, or none if more are asked for; a whole pile and any other item leave the list, whose other entries keep their order. |
| `ContainerHistory.StepKeeps` | src/container.cpp:711-881 | Every mutation guarded by an accepted queryAdd keeps the whole invariant while the ammunition fits a word. |
| `ContainerHistory.EveryStateIsSound` | src/container.cpp:118-881 | After any sequence of mutations the forest is acyclic, each cached weight is the recursive weight of the contents at every level, and each ammunition count is the sum over the direct contents. |
| `ContainerHistory.CachedIsRecursive` | src/container.cpp:236-249 | Under the invariant getWeight, read off the cache, is the recursive weight. |
| `ContainerHistory.AddThingExact` | src/container.cpp:118-130 | The word size is the exact limit: the ammunition count stays right if and only if the sum fits 32 bits. |
| `ContainerHistory.WrapAtEveryStep` | src/container.cpp:236-238 | A 32-bit total that wraps at every update is the unbounded total modulo 2^32. |
| `ContainerHistory.Iterate` | src/container.cpp:1028-1052 | The queue-driven traversal ends and lists every item held at any depth exactly once, and nothing else. |
| `ContainerStore.Store.UpdateItemWeight` | src/container.cpp:236-247 | The recursive call adds the difference to each container on the chain of parents, once, and changes nothing else. |
| `ContainerStore.Store.UpdateAmmoCount` | src/container.cpp:118-130 | Wrapping increase, saturating decrease, ammunition only. |
| `ContainerStore.Store.AddThing` | src/container.cpp:711-738 | Refuses an index past the capacity; otherwise the step AddThingKeeps is about, and the item is listed at the front. |
| `ContainerStore.Store.AddItemBack` | src/container.cpp:740-752 | The same at the back, through addItem of lines 168-177. |
| `ContainerStore.Store.UpdateThing` | src/container.cpp:754-771 | An item that is not listed changes nothing; otherwise the step UpdateThingKeeps is about, with type and count as given. |
| `ContainerStore.Store.ReplaceThing` | src/container.cpp:797-833 | The source's order of writes ends in the same forest as erasing one item and inserting the other, in the same place of the list. |
| `ContainerStore.Store.RemoveThing` | src/container.cpp:835-881 | An item that is not listed changes nothing; otherwise the step RemoveThingKeeps is about: the pile has n - removed pieces, or the item is gone from the list and nothing else is. |
| `ContainerStore.Store.QueryAdd` | src/container.cpp:446-530 | An accepted query without FLAG_CHILDISOWNER means that the item is neither the container nor around it; FLAG_CHILDISOWNER skips that test. |
| `ContainerStore.Store.GetThingIndex` | src/container.cpp:883-893 | An index of the item, or -1 exactly when it is not listed. |
| `ContainerLoading.UnserializeItemNode` | src/container.cpp:200-234 | Whatever the node tree holds, the forest keeps its whole invariant and nothing but the container and new items is touched; the answer is true exactly when every node can be read, and then the contents are, in order and at every depth, what the tree says. |
| `ContainerLoading.LoadContainer` | src/container.cpp:200-234 | A container loaded from an empty one holds the tree, and the weight it reports off its cache is the weight of everything in the tree. |
| `ContainerLoading.LoadedWeight` | src/container.cpp:249-249 | The recursive weight of a loaded item is the weight of its tree. |
| `DecayModel.RunKeeps` | src/decay.cpp:29-182 | In every run of starts, stops, births, deaths, clock ticks, checks with re-entrant callbacks, orphaned timers and clears, all buckets are sound and the remembered timer is in time for each of them. |
| `DecayModel.TrackedItem` | src/decay.cpp:78-137 | In every reachable state a live tracked item is in one bucket only, once, under its own stamp, with a wake-up due no later than the stamp plus MIN_TASK_INTERVAL. |
| `DecayModel.NothingLeftLate` | src/decay.cpp:34-44 | If every timer is posted and run before the clock passes its due time, no reachable state has an item tracked for more than MIN_TASK_INTERVAL after its time. |
| `DecayModel.CheckedKeeps` | src/decay.cpp:157-182 | A check run by any timer, also an orphaned one, re-establishes a timely wake-up whatever its callbacks did. |
| `DecayModel.StartedKeeps` | src/decay.cpp:78-104 | A start or restart leaves the item in one bucket and the timer in time, whether or not a new timer was needed. |
| `DecayModel.RescheduledKeeps` | src/decay.cpp:29-44 | Cutting the delay to 32 bits and clamping it loses nothing. |
| `DecayModel.ExpiredExact` | src/decay.cpp:164-175 | A check hands over exactly the entries of the buckets that are due. |
| `DecayModel.HandOverEarlyIff` | src/decay.cpp:46-62 | A batch entry is handed over before its stamp if and only if callbacks of earlier entries restarted it with time left. |
| `DecayModel.EarlyHandOverHappens` | src/decay.cpp:157-182 | A run of seven events, from the empty scheduler, in which a callback restarts the other item of its batch and that item is handed over although its stamp is a minute away. |
| `DecayTracking.StopExact` | src/decay.cpp:106-137 | A stop takes one entry of this item out of the named bucket; every item keeps its number of entries in every other place. |
| `DecayTracking.StartExact` | src/decay.cpp:78-104 | After a start or restart the item is listed once, under its new time, and every other item where it was. |
| `DecayTracking.StaysTracked` | src/decay.cpp:78-182 | In every run a started item is alive, stamped and in the bucket of its stamp until it is stopped, restarted or destroyed, everything is cleared, or a check has it in its batch. |
| `DecayTracking.HandedOverInTime` | src/decay.cpp:29-182 | With punctual timers an item that is started and left alone has been handed over, with its stamp and not before its time, once the clock is past its time plus MIN_TASK_INTERVAL. |
| `DecayTracking.HandOversExact` | src/decay.cpp:46-62 | A check hands over each batch entry that is alive when its turn comes, in order, and no other. |
| `DecayTimers.StartSetsTimer` | src/decay.cpp:88-98 | A start sets a timer exactly if its item would be the first to decay, for its time and at least 50 ms ahead; it cancels the remembered one, except that of a map that had run empty. |
| `DecayTimers.CheckSetsTimer` | src/decay.cpp:29-44 | A check ends with a timer for the next item to decay, at least 50 ms ahead, if there is one. |
| `DecayTimers.CheckTakesDue` | src/decay.cpp:157-175 | A check takes the buckets that are due as a whole and leaves the others as they are. |
| `DecayTimers.CollectedOnce` | src/decay.cpp:164-175 | A live item is in the batch at most once. |
| `DecayTimers.ClearExact` | src/decay.cpp:139-155 | Clearing cancels and forgets the timer and empties the map. |
| `DecayManager.Decay.StartDecay` | src/decay.cpp:78-104 | The object's new state is the model's; the item is listed once, under its new time, and the others where they were. |
| `DecayManager.Decay.StopDecay` | src/decay.cpp:106-137 | Swap-and-pop removal from the stamped bucket, dropping an empty bucket; every other entry of every bucket stays. |
| `DecayManager.Decay.CheckDecay` | src/decay.cpp:157-182 | The loops collect, hand over and reschedule as the model does; from any sound state the invariant holds afterwards. |
| `DecayManager.Decay.ScheduleNextCheck` | src/decay.cpp:34-44 | Replaces the remembered timer by one with the clamped 32-bit delay. |
| `DecayManager.Decay.Clear` | src/decay.cpp:139-155 | Forgets all buckets and the timer. |
| `DatabaseTasks.RunKeeps` | src/databasetasks.cpp:12-114 | The invariant of queue, worker, notifications and waiters in every interleaving, with lost notifications and spurious wake-ups. |
| `DatabaseTasks.ExecutedInOrder` | src/databasetasks.cpp:17-57 | The tasks executed so far are a prefix of the tasks accepted: first in, first out, each once. |
| `DatabaseTasks.FlushMeansDone` | src/databasetasks.cpp:100-104 | flush returns only when every task accepted until then has been executed. |
| `DatabaseTasks.AcceptedExact` | src/databasetasks.cpp:44-78 | In every run exactly the tasks offered after the start of the worker and before its stop are accepted, in the order of the calls. |
| `DatabaseTasks.CallerExact` | src/databasetasks.cpp:32-42 | What starts, wakes, puts to sleep and releases a flush caller: its own calls, the end of the last task, the end of the worker, and nothing else. |
| `DatabaseTasks.ShutdownMeansDone` | src/databasetasks.cpp:106-114 | After shutdown's flush returns, every task ever accepted is executed and none is accepted any more. |
| `DatabaseTasks.NeverStuck` | src/databasetasks.cpp:17-42 | While an accepted task is unfinished, some internal step is enabled, although producers notify only on empty to non-empty. |
| `DatabaseTasks.InternalProgress` | src/databasetasks.cpp:17-42 | Every internal step lowers a measure. |
| `DatabaseTasks.DrainFinishesEverything` | src/databasetasks.cpp:17-78 | However the internal steps are scheduled, they end, and then every accepted task has run and no flush caller is asleep: no wake-up is lost. |
| `DatabaseTasks.Queue.AddTask` | src/databasetasks.cpp:44-78 | Accepts exactly while running and signals exactly on empty to non-empty. |
| `DatabaseTasks.Queue.TakeTask` | src/databasetasks.cpp:20-30 | Takes the front task, sleeps or leaves, as the step machine does. |
| `DatabaseTasks.Queue.FinishTask` | src/databasetasks.cpp:34-38 | Notifies exactly when idle. |
| `DatabaseTasks.Queue.FlushPredicate` | src/databasetasks.cpp:103-103 | The condition flush waits for means that all accepted tasks are executed. |
| `ConnectionPipeline.RunKeeps` | src/connection.cpp:136-467 | The invariant of queue, write, socket and lifetime in every interleaving of sends, posted handlers, completions, closes, ending reads, shutdown and destruction. |
| `ConnectionPipeline.SendOrder` | src/connection.cpp:332-467 | At most one write is posted or in flight and it is the queue's front; at most 128 messages are queued; messages go out in send order, none twice. |
| `ConnectionPipeline.SendExact` | src/connection.cpp:332-364 | A send on an open connection takes the message while fewer than 128 wait, posting the first one with it; at 128 it closes by force and keeps the queue; on a closed connection it does nothing. |
| `ConnectionPipeline.PostedExact` | src/connection.cpp:369-403 | A posted write is handed to the socket, or the connection is shut. |
| `ConnectionPipeline.CompleteExact` | src/connection.cpp:428-467 | An error drops the queue and shuts the connection; a success delivers the front message and goes on with the next, finishes a teardown, or shuts a socket whose connection was closed. |
| `ConnectionPipeline.CloseExact` | src/connection.cpp:142-161 | The first close marks the connection, takes it off the list, and shuts the socket at once on force or an empty queue; later ones do nothing. |
| `ConnectionPipeline.HoldersExact` | src/connection.cpp:62-107 | closeAll takes the object off the list and then shuts its socket, a read that stops closes the connection and lets go, and the destructor shuts the socket once nobody holds the object. |
| `ConnectionPipeline.FaultIff` | src/connection.cpp:136-467 | Which steps count as something going wrong: overflow, a failed post, start or write, a forced close, closeAll, a lost protocol. |
| `ConnectionPipeline.EverySendAccepted` | src/connection.cpp:332-467 | In every run, as long as nothing has gone wrong, every message sent on the open connection is accepted and is delivered or waits, in the order of the calls. |
| `ConnectionPipeline.QueueDrains` | src/connection.cpp:428-467 | From any state in which nothing has gone wrong, open or closed, successful completions alone deliver everything accepted. |
| `ConnectionPipeline.CloseFlushes` | src/connection.cpp:142-161 | Without errors the socket closes only after every accepted message was delivered. |
| `ConnectionPipeline.GracefulCloseEnds` | src/connection.cpp:449-466 | From any state after a graceful close, successful completions alone close the socket with everything delivered. |
| `ConnectionPipeline.LeakIff` | src/connection.cpp:142-147 | A step leaves the socket of a closed connection open with no write to come if and only if a write fails while a graceful close is draining. |
| `ConnectionPipeline.LeakEndsIff` | src/connection.cpp:163-178 | The destructor, which runs once the read side has let go, and a closeAll that had taken the connection before are the only steps that shut such a socket; no later closeAll lists it. |
| `ConnectionPipeline.LeakLasts` | src/connection.cpp:142-147 | While a read is pending the socket then stays open, whatever else happens. |
| `ConnectionPipeline.LeakCloses` | src/connection.cpp:178-178 | Once the read side stops, the destructor shuts it. |
| `ConnectionPipeline.LeakHappens` | src/connection.cpp:443-447 | A run that ends in such a state, with the read still pending. |
| `ConnectionPipeline.Connection.Send` | src/connection.cpp:332-364 | The new state is the model's; in the fields: nothing on a closed connection, a forced close at 128 waiting messages, and otherwise the message is queued and the first one posted. |
| `ConnectionPipeline.Connection.InternalSend` | src/connection.cpp:369-403 | Starts the write, or tears down without a protocol or on failure. |
| `ConnectionPipeline.Connection.OnWriteOperation` | src/connection.cpp:428-467 | Pops, then clears, continues, finishes a teardown or closes. |
| `ConnectionPipeline.Connection.CloseLocked` | src/connection.cpp:142-161 | Nothing on a closed connection; the socket closes at once on force or an empty queue. |
| `ConnectionPipeline.Connection.Destruct` | src/connection.cpp:163-178 | The destructor closes the socket. |
| `ConnectionCounts.RunKeeps` | src/connection.cpp:17-132 | In every run the per-address table is the number of open counted connections, and under a fixed limit no address exceeds it. |
| `ConnectionCounts.ReleaseKeeps` | src/connection.cpp:33-54 | A release, repeated or not, keeps the table exact. |
| `ConnectionCounts.CreateExact` | src/connection.cpp:17-31 | A new connection is kept unless a positive maximum is reached. |
| `ConnectionCounts.WithinMaximum` | src/connection.cpp:17-31 | In every run under a fixed positive maximum there are never more connections. |
| `ConnectionCounts.TrackExact` | src/connection.cpp:109-132 | A listed connection is counted once, if fewer than the limit are open from its address; otherwise nothing changes. |
| `ConnectionCounts.ReleaseExact` | src/connection.cpp:33-71 | A release takes exactly this connection off the list, and closeAll every one. |
| `ConnectionCounts.ConnectionManager.TrackIPConnection` | src/connection.cpp:109-132 | Counts a connection once, within the limit, and reports the count. |
| `ConnectionCounts.ConnectionManager.ReleaseConnection` | src/connection.cpp:33-54 | The new table is the model's. |
| `RateLimiter.CheckKeeps` | src/connection_rate_limiter.cpp:88-135 | After every call entries and index nodes correspond one to one through the stored iterators, each key is lastAttempt + 300001, and at most 65,537 addresses are tracked. |
| `RateLimiter.RunKeeps` | src/connection_rate_limiter.cpp:37-135 | The same in every state of every run with a non-decreasing clock. |
| `RateLimiter.IndexOrder` | src/connection_rate_limiter.cpp:37-45 | The index lists addresses in the order of their last counted attempts. |
| `RateLimiter.SweptKeeps` | src/connection_rate_limiter.cpp:59-73 | The periodic sweep removes no entry whose block is active and leaves the others as they are. |
| `RateLimiter.SweptExactly` | src/connection_rate_limiter.cpp:62-73 | The sweep takes expired nodes off the front, with their addresses, until one is not expired or the batch is full. |
| `RateLimiter.SweepOnTime` | src/connection_rate_limiter.cpp:57-73 | It runs at the first call and then a minute after the last one; an expired entry is left only if 256 of them, and an eighth of all entries, went. |
| `RateLimiter.EvictedExactly` | src/connection_rate_limiter.cpp:75-86 | The ceiling removes exactly the surplus, and exactly the addresses whose last attempt is oldest. |
| `RateLimiter.CeilingIff` | src/connection_rate_limiter.cpp:57-86 | A cleanup takes an address that the sweep leaves if and only if it is among the surplus whose last attempt is oldest. |
| `RateLimiter.BlockedCallIff` | src/connection_rate_limiter.cpp:88-104 | A check under an active block is let in if and only if its address is among the surplus over the ceiling. |
| `RateLimiter.BlockStays` | src/connection_rate_limiter.cpp:101-104 | A call leaves an active block as it is, unless the entry is among the surplus over the ceiling, which takes it; a call of its own address is let in exactly in the second case. |
| `RateLimiter.BlockHolds` | src/connection_rate_limiter.cpp:57-124 | In every run, a block of length d that starts at t and has not been taken by the ceiling refuses a check of its address before t + d, unless the ceiling takes it in that very call. |
| `RateLimiter.BlockBrokenIff` | src/connection_rate_limiter.cpp:57-124 | In every run, between the start of a block and a later check of its address inside the block some check of the address is let in if and only if at some call in between, or at that check, the address is among the surplus over the ceiling. |
| `RateLimiter.CeilingTakesBlocked` | src/connection_rate_limiter.cpp:75-86 | A run in which address 0 is blocked for three seconds and, after 65,536 other addresses in the same millisecond, is let in again. |
| `RateLimiter.BlocksEscalate` | src/connection_rate_limiter.cpp:20-32 | Blocks never get shorter with their number. |
| `RateLimiter.CheckAnswers` | src/connection_rate_limiter.cpp:88-135 | What a call answers and what it writes for its address: a block starts if and only if the call comes within 5,000 ms and the minimal interval and the count exceeds what is allowed; count, number of blocks and duration (3, 15, 60, 300 seconds) in each case; no other entry changes. |
| `RateLimiterBursts.BurstStartsBlock` | src/connection_rate_limiter.cpp:88-124 | In every run an address without an entry that calls again and again, each time within the window and the minimal interval, is let in as often as allowed (at least once); the next call starts a block of three seconds, unless the ceiling takes the entry meanwhile. |
| `RateLimiter.ConnectionRateLimiter.RefreshExpiry` | src/connection_rate_limiter.cpp:37-45 | The object's new state is the model's. |
| `RateLimiter.ConnectionRateLimiter.EraseOldestEntry` | src/connection_rate_limiter.cpp:47-55 | Drops the front node, and its entry if the iterators match. |
| `RateLimiter.ConnectionRateLimiter.Cleanup` | src/connection_rate_limiter.cpp:57-86 | Both loops end and do what the model's sweep and eviction do. |
| `RateLimiter.ConnectionRateLimiter.Check` | src/connection_rate_limiter.cpp:88-135 | State and answer are the model's, the invariant is kept, and count, block and answer are what CheckAnswers says. |
| `Transactions.AllOrNothing` | src/database.h:356-394 | Whatever fails, deadlocks or is retried, a call that answers false changed nothing and one that answers true applied the callback once, to the original database, as long as no attempt wrote past a transaction the server had ended. |
| `Transactions.GoesIff` | src/database.h:356-394 | A call whose callback is n statements in a row answers true if and only if the outcomes of begin, statements and commit carry one attempt through and only retryable failures lead to it. |
| `Transactions.ExecuteWithinTransactionRollbackOnFailure` | src/database.h:349-394 | The bounded retry loop over transaction objects is the recursive model. |
| `Transactions.DBTransaction.Begin` | src/database.h:315-323 | State and session after begin. |
| `Transactions.DBTransaction.CommitIt` | src/database.h:325-337 | Only a started transaction commits; a failed commit keeps state and rows. |
| `Transactions.DBTransaction.Rollback` | src/database.h:304-347 | Only a started transaction is rolled back, by rollback or by the destructor. |
| `AccountCoins.TransferExact` | src/account_coins.cpp:61-131 | The call answers true exactly when debit, credit and history were applied once, and only for balances that allow it; otherwise nothing changed. |
| `AccountCoins.TransferSucceeds` | src/account_coins.cpp:61-131 | A possible transfer that meets no failure goes through. |
| `AccountCoins.PossibleIff` | src/account_coins.cpp:61-106 | Which balances allow a transfer: the source may be emptied, the destination filled up to 4,294,967,295. |
| `AccountCoins.StatementExact` | src/account_coins.cpp:25-59 | Answer and new balance of one debit or credit. |
| `AccountCoins.TransferCoins` | src/account_coins.cpp:61-131 | The call itself, through the retry loop. |
| `AccountCoins.MovedConserves` | src/account_coins.cpp:90-106 | A transfer keeps the sum of all balances and every balance in 0..MaxCoins. |
| `AccountCoins.ApplyExact` | src/account_coins.cpp:25-131 | One debit, credit or transfer changes the total by exactly what its answer says. |
| `AccountCoins.Conservation` | src/account_coins.cpp:25-131 | Over any run with any failures, balances stay in 0..MaxCoins and the total changes only by debits and credits that answered true; transfers conserve it. |
| `CharacterBazaar.CommissionWithinBid` | src/character_bazaar.cpp:132-146 | The payout does not underflow for any 64-bit bid, and the commission is the percentage for bids up to MaxCoins. |
| `CharacterBazaar.FinalizeExact` | src/character_bazaar.cpp:114-164 | However attempts fail or are retried, the auction is settled completely or nothing changes; a change comes only with the answer true. |
| `CharacterBazaar.FinalizeSucceeds` | src/character_bazaar.cpp:114-164 | An auction that can be settled and meets no failure is settled. |
| `CharacterBazaar.SettleableIff` | src/character_bazaar.cpp:114-164 | Which auctions can be ended, in terms of their row, the owner of the character and the seller's account. |
| `CharacterBazaar.EndsHow` | src/character_bazaar.cpp:128-164 | Without a bidder or a bid it is cancelled and nothing moves; otherwise it is finished for the bid, and the character and the log change accordingly; no other auction changes. |
| `CharacterBazaar.SellerPaid` | src/character_bazaar.cpp:145-152 | On a sale payout plus commission is the bid, the seller gets the payout, nobody else's balance changes, the character moves to the bidder. |
| `CharacterBazaar.CreateExact` | src/character_bazaar.cpp:272-306 | As long as no check is a deadlock victim, creation is all or nothing, charges the fee once, and breaks the rule of one active auction if and only if it goes through for an account that has one. |
| `CharacterBazaar.ListedRow` | src/character_bazaar.cpp:286-305 | The stored row has the terms of the offer and no bid, the account pays the fee, and it must have it. |
| `CharacterBazaar.ListedOneActive` | src/character_bazaar.cpp:278-299 | A new row keeps the rule if and only if the account had no active auction. |
| `CharacterBazaar.CreateGrows` | src/character_bazaar.cpp:272-306 | Whatever fails, creation never touches an existing auction or an owner. |
| `CharacterBazaar.EndsOnce` | src/character_bazaar.cpp:114-164 | In every run an auction leaves ACTIVE in at most one step, and that step settles it completely. |
| `CharacterBazaar.OverForGood` | src/character_bazaar.cpp:119-126 | An auction that is over never changes again. |
| `CharacterBazaar.CharacterMovesOnce` | src/character_bazaar.cpp:147-152 | A character changes account only in the step that ends its auction. |
| `CharacterBazaar.FinalizeExpired` | src/character_bazaar.cpp:356-375 | The loop finalizes each listed auction in turn; only listed auctions that were due change, and they are over afterwards. |
| `AuctionFailures.EscapesIff` | src/character_bazaar.cpp:272-306 | One attempt has written for good, outside any transaction, if and only if it passed the checks although one was a deadlock victim, and its first statement that changes a row went through. |
| `AuctionFailures.BodyExact` | src/character_bazaar.cpp:272-306 | The answer of the body and the rows it leaves committed, for every combination of statement outcomes. |
| `AuctionFailures.CreateWholeIff` | src/character_bazaar.cpp:272-306 | A whole call fails to be all or nothing if and only if an attempt reached through retries writes so and is not carried through. |
| `AuctionFailures.AttemptBreaksIff` | src/character_bazaar.cpp:278-299 | One attempt, whatever it answers, makes a second active auction if and only if it leaves a new row for an account that has one. |
| `AuctionFailures.CreateBreaksIff` | src/character_bazaar.cpp:272-306 | The same for a whole call with all its retries. |
| `AuctionFailures.CheckedNeverBreaks` | src/character_bazaar.cpp:76-86 | While the checks do not fail, no creation breaks the rule. |
| `AuctionFailures.StepBreaksIff` | src/character_bazaar.cpp:272-306 | Among finalizations, creations and bids, only such a creation breaks it. |
| `AuctionFailures.OneActiveAlways` | src/character_bazaar.cpp:272-306 | In every run without such a creation no account ever has two active auctions. |
| `AuctionFailures.SecondAuctionHappens` | src/character_bazaar.cpp:272-306 | A lock timeout on the account check gives an account two active auctions. |
| `AuctionFailures.FeeLostHappens` | src/character_bazaar.cpp:272-306 | A deadlock on that check and a failed insertion: the call answers false and the fee is gone. |
| `AuctionFailures.AuctionLeftHappens` | src/character_bazaar.cpp:272-306 | A deadlock on that check and a failed history row: the call answers false, the fee is gone, and a second auction is stored and active. |
| `WardenRewards.PersistExact` | src/echo_raid.cpp:921-951 | The batch of rewards is applied completely or not at all. |
| `WardenRewards.PersistSucceeds` | src/echo_raid.cpp:925-943 | It is applied when nothing fails. |
| `WardenRewards.EffectExact` | src/echo_raid.cpp:924-943 | The new claim rows are the listed pairs, and points are granted exactly to the pairs that had no row. |
| `WardenRewards.PointsExact` | src/echo_raid.cpp:829-832 | Each listed player without a claim gets the points, up to the cap, and nobody else's points change. |
| `WardenRewards.InsertedExact` | src/echo_raid.cpp:924-941 | The vector tells, player by player, whether the row is new. |
| `WardenRewards.CommittedExact` | src/echo_raid.cpp:944-963 | After a commit the points added in memory are exactly those granted in the database. |
| `WardenRewards.KeysDistinct` | src/echo_raid.cpp:836-841 | Retry keys of distinct pairs never collide. |
| `WardenRewards.RunKeeps` | src/echo_raid.cpp:817-963 | Over any run of deaths, failed batches and retries, each pair is granted at most once and exactly when its row was inserted, and whoever took part has the claim or waits for a retry. |
| `WardenRewards.RetrySucceeds` | src/echo_raid.cpp:843-875 | A due retry that meets no failure leaves the queue with its pair claimed. |
| `WardenRewards.DeathExact` | src/echo_raid.cpp:915-963 | A death adds to the players in memory what it grants in the database, or adds nothing and queues every recipient that is not queued yet, due in a second. |
| `WardenRewards.RetryExact` | src/echo_raid.cpp:843-875 | A due retry that fails only waits longer; one that goes through leaves the queue, grants unless the claim was there, and adds to a player online just that. |
| `WardenRewards.RetryTimes` | src/echo_raid.cpp:853-857 | The waits after the first six failures: 2, 4, 8, 16, 32 and 60 seconds. |
| `WardenRewards.BackOff` | src/echo_raid.cpp:853-857 | The wait between retries grows up to one minute. |
| `WardenRewards.RetryPending` | src/echo_raid.cpp:843-875 | In whatever order the keys come, each due reward is tried exactly once and is then claimed and gone or waits longer; the others are left alone; the invariant is kept. |
| `WardenRewards.TurnEffect` | src/echo_raid.cpp:845-874 | One turn of the loop touches one key only. |
| `EchoRaids.RunKeeps` | src/echo_raid.cpp:517-785 | With the spawn plan of lines 276-313, the invariant of raids, creatures and protection in every run of starts, spawn attempts, aura updates, removals and cleanups. |
| `EchoRaids.TablesAgree` | src/echo_raid.cpp:517-575 | creatureToRaid and the raids' lists are inverse to each other, every stored raid has a creature or a pending spawn, and what appeared plus what is pending is the plan. |
| `EchoRaids.ProtectedByLivingWarden` | src/echo_raid.cpp:637-694 | A live protected monster is listed by exactly one stored raid, its owner, whose Warden is alive. |
| `EchoRaids.SpawnKeeps` | src/echo_raid.cpp:302-313 | A spawn attempt that fails keeps the plan; one that succeeds uses up exactly one entry. |
| `EchoRaids.SpawnExact` | src/echo_raid.cpp:517-568 | With a free tile the first monster still planned appears, of the race and instance of the raid, mapped to it and listed there; otherwise nothing changes. |
| `EchoRaids.StartExact` | src/echo_raid.cpp:577-632 | A start adds this raid, with its first monster if the tile is free, and leaves the other raids alone. |
| `EchoRaids.StartProtects` | src/echo_raid.cpp:577-632 | The aura of a Warden that came at once protects from the start the eligible monsters in range; no other start protects anything. |
| `EchoRaids.AuraKeeps` | src/echo_raid.cpp:652-694 | An aura update keeps owners and lists in agreement. |
| `EchoRaids.AuraExact` | src/echo_raid.cpp:652-694 | An aura update protects exactly the monsters in range of the same race and instance that are not the Warden and that no other raid owns or protects, and releases the others. |
| `EchoRaids.ForgetWarden` | src/echo_raid.cpp:760-785 | When the Warden goes, nothing stays protected by its raid. |
| `EchoRaids.RemovedExact` | src/echo_raid.cpp:760-785 | A raid that loses a creature stays as long as others live or spawns are pending, also after its Warden, who takes the protection along; no other raid changes. |
| `EchoRaids.CleanupKeeps` | src/echo_raid.cpp:696-715 | After cleanup no live monster belongs to the raid or is protected by it. |
| `EchoRaids.PlanOfOutcome` | src/echo_raid.cpp:276-295 | The plan of a started raid is what its outcome calls for. |
| `EchoRaids.EchoRaidManager.UpdateWardenAura` | src/echo_raid.cpp:652-694 | Judging and marking monsters one by one comes to the model's update. |
| `EchoRaids.EchoRaidManager.ClearWardenProtection` | src/echo_raid.cpp:637-650 | Releases exactly the listed live monsters that the raid owns. |
| `EchoRaids.EchoRaidManager.OnCreatureRemoved` | src/echo_raid.cpp:760-785 | The object's new state is the model's. |
| `EchoRaids.EchoRaidManager.CleanupRaid` | src/echo_raid.cpp:696-715 | Because the record goes first, the removal events it causes change nothing more; the invariant is kept. |
| `CharmLedger.RemoveResult` | src/bestiary_charm.cpp:561-589 | A removal clears one creature, or leaves or restores the rows exactly. |
| `CharmLedger.UpgradeResult` | src/bestiary_charm.cpp:430-482 | An upgrade changes tier, price and echoes together or nothing at all. |
| `CharmLedger.UpgradesIff` | src/bestiary_charm.cpp:430-482 | When an upgrade answers true, in terms of balances, reads and statement outcomes. |
| `CharmLedger.UpgradeSucceeds` | src/bestiary_charm.cpp:430-482 | An affordable upgrade that meets no failure goes through. |
| `CharmLedger.RestoreExact` | src/bestiary_charm.cpp:378-412 | Deleting and inserting row by row in any order restores exactly the given rows, or nothing changes. |
| `CharmLedger.ResetGoesIff` | src/bestiary_charm.cpp:493-499 | The transaction that wipes the rows commits if and only if its two statements go through in some attempt. |
| `CharmLedger.RestoreGoesIff` | src/bestiary_charm.cpp:378-412 | The restore commits if and only if its deletion, all its insertions and the echoes go through in some attempt. |
| `CharmLedger.ResetResult` | src/bestiary_charm.cpp:484-513 | A reset does nothing, or wipes the rows and refunds what was read as spent, or, when the charge fails and the restore does not, puts back the rows as they were read. |
| `CharmLedger.SpentMajorCharmPoints` | src/bestiary_charm.cpp:364-376 | Adding up the rows in any order gives the cost of all major tiers reached. |
| `CharmAnswers.ResetPays` | src/bestiary_charm.cpp:484-513 | When a reset answers true, and that it then takes 100,000 gold, above level 100 another 11,000 a level, from the inventory first and then the bank; otherwise no gold is gone. |
| `CharmAnswers.RemovalPays` | src/bestiary_charm.cpp:561-589 | The same for taking a creature off a charm, at 100 a level. |
| `CharmAnswers.RemoveGoldExact` | src/bestiary_charm.cpp:318-349 | When gold is taken, and from where. |
| `CharmAnswers.OthersKeepGold` | src/bestiary_charm.cpp:206-559 | No other event takes gold. |
| `CharmAnswers.AssignExact` | src/bestiary_charm.cpp:515-559 | When an assignment answers true: the charm unlocked, the creature known well enough and on no other charm of the category, a slot free (two, or six for premium) if the charm had none; it then sets this creature and nothing else. |
| `CharmAnswers.TierPrices` | src/bestiary_charm.cpp:78-95 | The three tiers of a charm cost its three prices, which rise and add up. |
| `CharmAnswers.TierRewards` | src/bestiary_charm.cpp:97-100 | The tiers of a major charm bring 50, 100 and 200 echoes. |
| `CharmAnswers.LoadReads` | src/bestiary_charm.cpp:206-230 | A load reads every row, tiers above three as three; one that fails reads none. |
| `CharmAnswers.EchoesRise` | src/bestiary_charm.cpp:302-316 | Added echoes raise balance and maximum by the amount, up to the largest word. |
| `CharmRuns.EventIff` | src/bestiary_charm.cpp:206-589 | Whatever fails in an action, a cache fill or an addition of echoes: the charm rows stay well-formed, and points plus the cost of majors, echoes plus the cost of minors, and the cache stay right, each if and only if its guard on the state, the event and its failures holds. |
| `CharmRuns.NextIff` | src/bestiary_charm.cpp:206-589 | The whole invariant survives an event if and only if all three guards hold. |
| `CharmRuns.UpgradeIff` | src/bestiary_charm.cpp:430-482 | The guards of an upgrade: a failed load must not hide an unlocked tier, balance and maximum must have been read or no minor bought, and they overflow together or not at all. |
| `CharmRuns.ResetIff` | src/bestiary_charm.cpp:484-513 | The guards of a reset, with failed loads, failed charges and restores. |
| `CharmRuns.ResetRefunds` | src/bestiary_charm.cpp:490-512 | A reset that answers true after a load that did not fail refunds exactly what the majors cost and blanks every row. |
| `CharmRuns.EchoesAddedIff` | src/bestiary_charm.cpp:302-316 | The guard of adding echoes, saturation included. |
| `CharmRuns.FilledIff` | src/bestiary_charm.cpp:232-244 | A cache filled by a failed load is right if and only if there are no rows. |
| `CharmRuns.RemoveKeeps` | src/bestiary_charm.cpp:561-589 | A removal keeps everything, whatever fails. |
| `CharmRuns.AssignKeeps` | src/bestiary_charm.cpp:515-559 | So does an assignment. |
| `CharmRuns.CleanIsHarmless` | src/bestiary_charm.cpp:206-589 | SELECTs that succeed and sums that fit a word satisfy the guards. |
| `CharmRuns.RunKeeps` | src/bestiary_charm.cpp:206-589 | Over any sequence of events that satisfy them: points plus the cost of majors is constant, echoes plus the cost of minors is the maximum, tier 0 has no creature, at most six charms are assigned, no two of a category share a creature, and the cache is what a load returns. |
| `CharmRuns.FirstHarmBreaks` | src/bestiary_charm.cpp:206-589 | And the first event that does not breaks it. |
| `CharmRuns.ResetLosesCharms` | src/bestiary_charm.cpp:484-513 | A run: unlock a charm, then a reset whose load and charge fail and whose restore goes through; the charm is gone and its points are not refunded. |
| `CharmRuns.AddingLosesEchoes` | src/bestiary_charm.cpp:302-316 | A run: buy a minor charm, then add echoes while the balance cannot be read; the balance is overwritten. |
| `CharmRuns.MissedIsWrong` | src/bestiary_charm.cpp:232-244 | A world whose cache lacks an unlocked charm. |
| `CharmRuns.CacheMissesCharms` | src/bestiary_charm.cpp:232-244 | A run that ends in it: unlock a charm, then fill the cache while the charms cannot be read. |
| `DamageOverTime.GenerateDamageList` | src/condition.cpp:1758-1776 | For every amount and start the loops end; the hits never grow, are exactly the values start down to 1 (each at least once), and add up to max(amount, start + ... + 1). |
| `DamageOverTime.ExactIff` | src/condition.cpp:1758-1776 | The total is the amount if and only if start * (start + 1) <= 2 * amount; in particular whenever start * start <= amount and start > 0. |
| `DamageOverTime.DefaultStartExactIff` | src/condition.cpp:1512-1517 | With the default start the total is the amount if and only if the amount is at most 760, or 780. |
| `DamageTicks.LandedIff` | src/condition.cpp:1548-1586 | The first k hits have landed after n executions if and only if their waiting times, each rounded up to executions, fit into n. |
| `DamageTicks.LandedInOrder` | src/condition.cpp:1557-1574 | Hits land in list order, each once, and the rest stays pending with the same values. |
| `DamageTicks.AllLandIff` | src/condition.cpp:1548-1586 | A finite condition deals a prefix of its hits before it ends, and all of them if and only if the rounded-up steps are over by its end time. |
| `DamageTicks.RolledAllLand` | src/condition.cpp:1500-1586 | A freshly rolled condition with an interval of whole seconds deals every hit. |
| `DamageTicks.HitLostHappens` | src/condition.cpp:1548-1586 | Three hits 1500 ms apart, executed every second, deal only two. |
| `DamageTicks.PeriodExact` | src/condition.cpp:1550-1556 | c executions into a round, n more strike (c + n) / ceil(tickInterval / d) times, always with the same damage; in every execution if there is no interval. |
| `DamageTicks.EndlessExact` | src/condition.cpp:1557-1583 | An endless condition deals its front hit when its waiting time is over and then every interval, both rounded up to executions; no other hit of its list ever lands. |
| `DamageTicks.ExecutedExact` | src/condition.cpp:1548-1586 | Hits aside, an execution takes d off the ticks of a condition with an end and goes on until its end time. |
| `DamageCondition.ConditionDamage.AddDamage` | src/condition.cpp:1468-1498 | Appends the hit `rounds` times, adds up values and duration, or sets periodic damage. |
| `DamageCondition.ConditionDamage.Init` | src/condition.cpp:1500-1527 | Rolls hits of one interval that add up to the generator's total, with ticks and end time to match, or keeps what is there. |
| `DamageCondition.ConditionDamage.ExecuteCondition` | src/condition.cpp:1548-1586 | State, damage and answer of one execution are the model's. |
| `PropStreams.ValueBytes` | src/fileloader.h:124-129 | A word that fits reads back from its little-endian bytes. |
| `PropStreams.LittleEndian` | src/fileloader.h:124-129 | Byte i of a word is its i-th digit to the base 256, lowest first. |
| `PropStreams.ReadBytes` | src/fileloader.h:68-78 | Reading right behind a write gives the word and leaves what follows. |
| `PropStreams.PropWriteStream.Write` | src/fileloader.h:124-129 | Appends the bytes of the word. |
| `PropStreams.PropStream.ReadWord` | src/fileloader.h:68-78 | Reads a word or, when the stream is too short, leaves it where it is. |
| `PropStreams.PropStream.Skip` | src/fileloader.h:96-104 | The same for skipping. |
| `ConditionCodec.RoundTrip` | src/condition.cpp:69-395 | For every condition but a light, of every class but ConditionAttributes, what serialize wrote is created and unserialized into the restored condition, stopping right behind it. |
| `ConditionFormat.SavedBytes` | src/condition.cpp:163-196 | The bytes of every saved condition, with the tags of src/condition.h and the widths of each field. |
| `ConditionFormat.FieldBytes` | src/fileloader.h:124-129 | A field is its tag, its bytes lowest first, and what follows. |
| `ConditionCodec.OneBitIff` | src/condition.cpp:314-316 | The test on the type word accepts exactly the powers of two. |
| `ConditionCodec.FieldsKept` | src/condition.cpp:163-196 | Loading what serialize wrote gives back every saved field; only ticks and end time can differ, ticks only for Damage, and the look of an outfit. |
| `ConditionCodec.OutfitKeptIff` | src/condition.cpp:2116-2143 | A saved outfit is loaded as it was if and only if it has no colors, addons or familiar. |
| `ConditionCodec.OutfitShifts` | src/condition.cpp:2116-2143 | A saved list with an outfit of four colors and addons, and the outfit with the colors in the wrong places that is loaded from it. |
| `ConditionCodec.DamageTicksIff` | src/condition.cpp:1409-1436 | Loaded Damage ticks are the sum of the intervals if and only if no partial sum is -1, or the sum is -1 too. |
| `ConditionCodec.TicksStick` | src/condition.cpp:1424-1434 | Bytes that load, with a first interval of -1: the ticks stay at -1 although the intervals add up to 999. |
| `ConditionCodec.OrdinaryNeverEndless` | src/condition.cpp:1430-1432 | Lists of non-negative intervals that add up to a 32-bit number have no such partial sum. |
| `ConditionCodec.EndTimeKeptIff` | src/condition.cpp:374-391 | When a constant condition is loaded with its saved end time. |
| `ConditionCodec.EndTimeChanges` | src/condition.cpp:1424-1434 | A constant fire condition with two hits left, loaded a minute later, ends a minute later. |
| `ConditionCodec.AddAllExact` | src/condition.cpp:1424-1434 | Reading a list hit by hit leaves the same list, with ticks and end time of the running sum. |
| `ConditionCodec.ListRoundTrip` | src/iologindata.cpp:498-508 | What stands in front of the first light in a saved list is loaded, each condition restored, in reverse order; the light and everything behind it is lost. |
| `ConditionCodec.LightFails` | src/condition.cpp:2264-2308 | The second byte of the color word is read as a tag, and unserialize fails there. |
| `ConditionCodec.ListCompleteIff` | src/iologindata.cpp:498-508 | A saved list loads completely if and only if it holds no light. |
| `ConditionCodec.LightLosesTheRest` | src/condition.cpp:2264-2308 | A light in front of a burning condition: neither is loaded. |
| `ConditionStreams.Serialize` | src/condition.cpp:163-196 | Writing field by field to the stream produces the codec's bytes, whatever is appended later. |
| `ConditionStreams.CreateCondition` | src/condition.cpp:292-395 | Reading the header off the stream is the codec's creation, failures included. |
| `ConditionStreams.UnserializeFrom` | src/condition.cpp:69-78 | The property loop on the stream is the codec's reading, failures included. |
| `ConditionStreams.SaveConditions` | src/iologindata.cpp:1177-1184 | Writes exactly the persistent or constant conditions, each with its END byte. |
| `ConditionStreams.KeptExact` | src/condition.cpp:405-416 | A save keeps, in order, the constant conditions and those with an end that are default, combat or muted ones. |
| `ConditionStreams.LoadConditions` | src/iologindata.cpp:498-508 | The loading loop ends and collects what parses, last first. |
| `ConditionStreams.SaveThenLoad` | src/iologindata.cpp:1177-1184 | Saving and loading a player's conditions restores exactly those a save keeps, up to the first light. |

## Left out

- Lua events, client messages, spectators, visual effects, logging and configuration: they change none of the modelled state.
- EchoRaids.ProtectedByLivingWarden: debug commands are not part of a run; `/echo visualempowered` (src/echo_raid.cpp:1095-1121) stores a raid without a Warden and protects a monster by it, so the property does not hold after it.
- Weak pointers are membership in a set of live objects; the clock does not run backwards and stands still within one call; sockets, timers and the database are inputs that may succeed or fail at every point.
- DamageOverTime.GenerateDamageList: the floating-point comparison is read over exact rationals, and 32-bit overflow of n * amount is not modelled.
- DamageCondition.ConditionDamage.ExecuteCondition: what doDamage does with the damage (immunity, blocking, halving on fields) and 32-bit overflow of timers are not modelled; addCondition, which merges two conditions, is not either.
- DamageTicks.AllLandIff: executions come exactly d apart, as the creature think loop schedules them; a loop that runs late is not modelled.
- ContainerStore.Store.QueryAdd: the policy checks around the ancestor walk (house, store inbox, quiver, room) are inputs.
- ContainerStore.Store.ReplaceThing: the new item is loose; replacing an item by itself, which the source would leave listed without a parent, is not modelled.
- ContainerHistory.EveryStateIsSound: ammunition in one container fits 32 bits (AddThingExact shows the limit is exact); bare addItem, browse fields and the parent overrides of inbox and depot locker bypass the accounting and are not part of a run.
- ContainerLoading.UnserializeItemNode: what the properties of an item decode to is an input, and so is whether they can be read; the ammunition of each node list fits 32 bits.
- DecayModel.RunKeeps: the scheduler is running, so addEvent never answers 0, and durations are not negative; the DECAYSTATE attribute that callers test first is not modelled, because the runs allow every call.
- DatabaseTasks.RunKeeps: a query always ends; what it does and its callback on the dispatcher are not modelled.
- ConnectionPipeline.RunKeeps: what is read is not modelled, only that a pending read holds the object and how it ends; a timeout is a forced close.
- RateLimiter.RunKeeps: times do not overflow 64 bits.
- Transactions.AllOrNothing: a failed commit has not happened; reconnecting and running a statement again, and exceptions thrown by a callback, are not modelled. Callbacks are functions on sessions instead of code that talks to a connection.
- AuctionFailures.OneActiveAlways: bids come from the website and only raise bidder and amount of an active auction; eligibility checks before the transaction are not modelled.
- WardenRewards.RunKeeps: loot, forge dust and scrolls of a Warden are not modelled.
- EchoRaids.RunKeeps: portals, positions, occurrence policy and random draws are inputs or left out; creature numbers are never reused.
- CharmRuns.RunKeeps: the player is online, so charm points and gold are those of the player object.
- ConditionCodec.RoundTrip: ConditionAttributes is not modelled, because its reader leaves its arrays on what its writer wrote, to which C++ gives no meaning; fields that no class saves, such as the drunkenness, are not either; floats are carried as their four bytes, and Outfit_t has its usual size of 14 bytes.
- ConditionStreams.LoadConditions: a condition of class ConditionAttributes ends the model's loop, for the same reason.
- Combat, walking, path-finding, monsters and the map: not part of this model.
