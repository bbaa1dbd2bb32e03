# Verification of the server library

A Dafny model of the library's data structures and protocols, with proofs. `dafny verify dfyconfig.toml` checks it
all.

The model has six parts, each a machine on values with its theorems, and beside it the imperative code that is proved
to take the machine's steps.

* **Skip list** (`Options`, `Orders`, `Towers`, `SkipList`, `Decimal`, `Persistence`). Nodes on the heap with arrays
  of nullable forward pointers, spliced in place. A ghost sequence `chain` lists the nodes of level 0; the pointer of
  node p on level i must lead to `Next(levels, p, i)`, the next tower that reaches i. That one equation gives all
  levels at once, and the lemmas of `Towers` say how it changes when a tower comes or goes. The ghost map `contents`
  is what the list means, and `made` and `freed` log allocation. Dumping and loading are a codec over lines.
* **KV server** (`Tokenizer`, `KVProtocol`, `KVServer`). `strtok` cuts a buffer in place, the interpreter works on the
  verified skip list, and a session is proved to reply like a machine over a finite map.
* **Timers** (`TimerBook`, `Timers`). The book holds a record per timer and the set of armed timers; runs are
  sequences of events under a monotone clock. The manager keeps timer objects in an ordered index.
* **IO manager** (`Logs`, `EventTable`, `EventRuns`, `IOManager`). Per fd a context of event bits and waiters, the
  kernel's interest set as a map from fd to mask, and the pending counter. What one operation does to one fd decides
  about the whole table, and every guard is proved necessary as well as sufficient.
* **Scheduler** (`SchedulerSteps`, `SchedulerRuns`, `SchedulerCoroutines`, `StrandedTask`, `Scheduler`). N workers,
  each with a program counter in `run`, over one queue; a run is any interleaving of their steps. `yield` overwrites
  the state TERM with HOLD, so a coroutine that has ended looks like one on hold, and resuming it ends the thread. For
  the idle coroutine that is the intended exit; for the coroutine of a task the thread is lost. For the same reason a
  worker normally gives up the coroutine of a callback, and each callback gets a new one; when it keeps it is proved
  exactly. The class keeps a ghost history, and one turn of `run` is proved to take the right steps of the machine
  while the other threads take any of theirs.
* **Shutdown** (`Shutdown`, `ShutdownParts`). Scheduler, event table and timers as the one machine that the IO manager
  is; each of the three goes through a run of its own machine there.

Facts kept folded behind a trigger (`Open`, `Pair`, `Slot`, `Chosen`) are there to keep proofs fast and say nothing.

Three places where the code does something else than its names or comments suggest, all modelled as the code has it:
`cancelEvent` tests `!events & ev` and sends the kernel the old mask (`CancelEventSteady`); `delEvent` sends a mask
without EPOLLET, so the agreement of kernel and contexts is about all other bits, and EPOLLET has theorems of its own
(`ExactAfter`, `ExactIff`); on an error or hang-up only READ is added to what was reported (`FailureClears`).

## Model

| member | source | states |
|---|---|---|
| Orders.StringLessIsStrictTotal | skiplist/skiplist.h:124 | the lexicographic order of string keys is a strict total order, which is what the descent needs of `operator<` |
| Towers.NextAfterInsert | skiplist/skiplist.h:148-151 | splicing a tower of height h in changes the successor on level i of exactly the last shorter-placed node that reaches i, and only for i up to h |
| Towers.NextOfInserted | skiplist/skiplist.h:149 | the new tower's successor on level i is what its predecessor there pointed at before |
| Towers.TopInserted | skiplist/skiplist.h:140-145 | the tallest tower after an insertion is the larger of the old level and the drawn one |
| Towers.PredAboveTop | skiplist/skiplist.h:141-143 | above the level of the list the predecessor of any place is the header |
| Towers.PredPointsAt | skiplist/skiplist.h:248-251 | the remembered predecessor leads to the victim on level i exactly when the victim's tower reaches i, which is why the loop may stop at the first level where it does not |
| Towers.HeaderAtTop | skiplist/skiplist.h:255-257 | the header has no successor on a level exactly when that level is above every tower |
| Towers.LevelsZeroAndOneAgree | skiplist/skiplist.h:344-351 | with every tower at least 1 high, level 1 has the same successors as level 0 |
| SkipLists.Node.constructor | skiplist/skiplist.h:77-86 | a node of level n has n + 1 forward pointers, all null |
| SkipLists.SkipList.constructor | skiplist/skiplist.h:310-318 | a new list is valid, empty, and has freed nothing |
| SkipLists.SkipList.GetRandomLevel | skiplist/skiplist.h:343-351 | for any number of odd draws the level is one more than that, cut off at the maximum |
| SkipLists.SkipList.RandomLevel | skiplist/skiplist.h:343-351 | the level is one more than the odd draws, or the maximum if that is less, and so between 1 and the maximum |
| SkipLists.SkipList.WalkLevel | skiplist/skiplist.h:124-127 | walking one level stays inside every forward array and ends, with fewer nodes left at every step, at the last node of that level below the key |
| SkipLists.SkipList.FindPredecessors | skiplist/skiplist.h:119-130 | after the descent `update[i]` is the last node of level i below the key, null above the list, and `current` is the first node not below the key |
| SkipLists.SkipList.Descend | skiplist/skiplist.h:269-276 | the descent of search and get ends at the first node not below the key |
| SkipLists.FoundAtRank | skiplist/skiplist.h:276-279 | looking at that one node answers membership of the whole list, as a scan of level 0 would |
| SkipLists.SkipList.SearchElement | skiplist/skiplist.h:266-284 | search is membership in the map |
| SkipLists.SkipList.GetElement | skiplist/skiplist.h:289-306 | get is the stored value, or the empty string for an absent key |
| SkipLists.SkipList.Size | skiplist/skiplist.h:208-211 | size is the number of keys of the map |
| SkipLists.SkipList.RaiseUpdate | skiplist/skiplist.h:140-145 | levels the list does not have yet are spliced behind the header |
| SkipLists.SkipList.SpliceLevel | skiplist/skiplist.h:149-150 | one turn of the splice loop sets the two pointers of that level and no other pointer of any live node |
| SkipLists.SkipList.SpliceAll | skiplist/skiplist.h:148-151 | after the loop exactly the pointers of levels 0 to the drawn level are those of the longer list |
| SkipLists.SkipList.SplicedAll | skiplist/skiplist.h:148-151 | those pointers link the longer list on every level |
| SkipLists.SkipList.InsertElement | skiplist/skiplist.h:116-157 | returns 1 and changes nothing for a present key; otherwise returns 0, adds exactly that key and value, and the new node of the drawn height stands at its place in an otherwise unchanged list; shape and order hold again on every level |
| SkipLists.SkipList.InsertAt | skiplist/skiplist.h:138-154 | the insertion branch, from the remembered predecessors to a valid list |
| SkipLists.SkipList.Committed | skiplist/skiplist.h:144-153 | level and count after an insertion are exactly the tallest tower and the number of keys |
| SkipLists.SkipList.PointsAtVictim | skiplist/skiplist.h:249-251 | the break test is true exactly above the victim's tower, also half-way through unlinking |
| SkipLists.SkipList.UnlinkLevel | skiplist/skiplist.h:252 | one turn of the unlink loop redirects only the predecessor of that level past the victim |
| SkipLists.SkipList.UnlinkAll | skiplist/skiplist.h:247-253 | the early exit loses nothing: every level of the victim's tower is unlinked |
| SkipLists.SkipList.UnlinkedAll | skiplist/skiplist.h:247-253 | then every pointer of every surviving node links the shorter list |
| SkipLists.SkipList.LowerLevel | skiplist/skiplist.h:255-257 | the level of the list is lowered to exactly the tallest remaining tower, or 0 |
| SkipLists.SkipList.DeleteElement | skiplist/skiplist.h:233-264 | removes its key and nothing else, frees exactly the node of that key, once, and leaves a valid list; an absent key changes nothing |
| SkipLists.SkipList.RemoveAt | skiplist/skiplist.h:247-261 | the deleting branch, from the remembered predecessors to a valid list |
| SkipLists.SkipList.Clear | skiplist/skiplist.h:335-341 | the recursion frees every node from its argument to the end of the list, once, the last one first, and reads the successor only of a node not freed yet |
| SkipLists.SkipList.Destroy | skiplist/skiplist.h:320-333 | the destructor brings the freed nodes to exactly the nodes ever made, each once: every node of the list before those in front of it, and the header last |
| SkipLists.SkipList.LevelIsFilter | skiplist/skiplist.h:31-32 | in a valid list, following level i from the header meets exactly the nodes whose tower reaches i, in level-0 order with ascending keys, and ends in null |
| SkipLists.SkipList.NothingDangles | skiplist/skiplist.h:259 | no live node was freed, and every non-null pointer of a live node leads to a live node that was not freed |
| SkipLists.SkipList.LevelOneIsLevelZero | skiplist/skiplist.h:344-351 | on the heap, level 1 of a valid list is level 0 again, because no level below 1 is ever drawn |
| Decimal.StoiOfPrinted | skiplist/skiplist.h:200 | `stoi` undoes decimal printing for every 32-bit key |
| Decimal.NatPrinted | skiplist/skiplist.h:178 | a number is printed as digits worth exactly that number, without a leading zero unless it is 0 |
| Decimal.IntPrinted | skiplist/skiplist.h:178 | a negative number has one minus sign before its digits, any other none |
| Decimal.StoiExact | skiplist/skiplist.h:200 | of white space, an optional sign, digits, and anything that does not go on with a digit, `stoi` reads the signed worth of the digits exactly if it fits 32 bits |
| Decimal.StoiNothing | skiplist/skiplist.h:200 | without a digit behind white space and sign nothing is read |
| Persistence.DumpFile | skiplist/skiplist.h:172-186 | the file is one line `key:value` per node of level 0, in order |
| Persistence.DumpedIsContents | skiplist/skiplist.h:178-182 | those lines are the pairs of the map, each key once |
| Persistence.LineExact | skiplist/skiplist.h:178 | the first colon of a dumped line stands right behind the decimal key, and all behind it is the value |
| Persistence.GetKeyValueFromString | skiplist/skiplist.h:213-231 | a line is split at its first delimiter; one without delimiter leaves key and value as they were |
| Persistence.ParseExact | skiplist/skiplist.h:196-200 | a line is skipped without key or without value, else its key is what `stoi` reads before the first colon, if it reads anything, and its value all behind that colon |
| Persistence.ParseNothing | skiplist/skiplist.h:224-231 | a line without a colon is skipped |
| Persistence.GetLine | skiplist/skiplist.h:195 | the lines of a file, with an unterminated last one and without an empty rest |
| Persistence.LinesExact | skiplist/skiplist.h:195 | the lines of a file are what stands between its newlines, and what follows the last one unless that is empty |
| Persistence.LoadLine | skiplist/skiplist.h:195-202 | a malformed line repeats the previous key and value, which changes nothing, because that key has been inserted already |
| Persistence.LoadFile | skiplist/skiplist.h:188-206 | loading is the fold of the well-formed lines in which the first line for a key wins; it stops where `stoi` throws |
| Persistence.FirstLineWins | skiplist/skiplist.h:195-202 | loading lines that can all be read keeps what was there and adds, for each other key, the value of the first line for it, and nothing else |
| Persistence.StopsAtUnreadable | skiplist/skiplist.h:200 | at a line whose key cannot be read loading stops, with what the lines before it gave |
| Persistence.LoadOfDump | skiplist/skiplist.h:172-206 | loading dumped lines takes over exactly the dumped entries, values with `:` included |
| Persistence.RoundTrip | skiplist/skiplist.h:172-231 | dump and load into an empty list restores the map if and only if no value is empty or has a newline |
| Persistence.EmptyValueIsLost | skiplist/skiplist.h:197-199 | an empty value does not survive: its line is skipped |
| Tokenizer.TokensOfJoin | KVserver/kvserver.cpp:61-70 | splitting the space-joined text of non-empty space-free words gives back the words |
| Tokenizer.TokensOfSpread | KVserver/kvserver.cpp:61-70 | splitting words set apart by any numbers of spaces, also at the ends, gives back exactly the words, in order |
| Tokenizer.EveryTextIsSpread | KVserver/kvserver.cpp:61-70 | and every text is of that form |
| Tokenizer.TokenCount | KVserver/kvserver.cpp:65-68 | a request of n characters has at most (n + 1) / 2 tokens |
| Tokenizer.TokensAreWords | KVserver/kvserver.cpp:65-68 | every token is non-empty, has no space, and is made of characters of the request |
| Tokenizer.Strtok | KVserver/kvserver.cpp:64-67 | `strtok` with a space, as in section 7.24.5.8 of C11: the next token is cut off in place, nothing before the start of the search is touched, and the rest of the request still has the remaining tokens |
| Tokenizer.StillPlaced | KVserver/kvserver.cpp:66-67 | cutting later tokens leaves the earlier ones readable at their places |
| Tokenizer.Tokenize | KVserver/kvserver.cpp:61-70 | the count and the places in `kvlist` are those of the tokens of the whole request |
| KVProtocol.Command | KVserver/kvserver.cpp:77-80 | the command table is searched by name; an unknown name gives the index behind the table |
| KVProtocol.CommandNames | KVserver/kvserver.cpp:77-80 | each of the five names has its own place in the table |
| KVProtocol.TextOfFill | KVserver/kvserver.cpp:85-94 | a reply of less than 1024 characters is read back whole |
| KVProtocol.FillCuts | KVserver/kvserver.cpp:85-94 | a longer one is cut off at 1023 characters, and only NULs stand behind either |
| KVProtocol.RunKeepsClean | KVserver/kvserver.cpp:88-135 | over any session every stored value is a space-free word that fits a reply |
| KVProtocol.GetTellsTheMap | KVserver/kvserver.cpp:106-115 | in any session an SKGET is answered `Not Found` exactly when the key is absent, and with the whole stored value otherwise |
| KVProtocol.SetNeverOverwrites | KVserver/kvserver.cpp:88-105 | SKSET answers SUCCESS exactly for an absent key and EXIST exactly for a present one, whose value it keeps |
| KVProtocol.DelRemoves | KVserver/kvserver.cpp:116-124 | SKDEL takes its key out of the map and leaves every other key its value; the reply is empty exactly for a present key, and `Not Found` exactly for an absent one |
| KVProtocol.OtherRequests | KVserver/kvserver.cpp:142-146 | a first word that is no command is answered `Wrong Operation` and changes nothing; without any word the old reply stays too |
| KVProtocol.ModifyKeepsCount | KVserver/kvserver.cpp:125-135 | SKMOD changes the value of its key and no other, and keeps the set of keys and its size |
| KVProtocol.CountConserved | KVserver/kvserver.cpp:88-140 | after any session the number of keys is that at the start plus SUCCESS replies minus successful SKDELs |
| KVProtocol.CountTellsTheReplies | KVserver/kvserver.cpp:136-141 | SKCOUNT is answered with that number in decimal |
| KVProtocol.CountTellsTheSize | KVserver/kvserver.cpp:136-141 | and that is the number of keys of the map, which it leaves alone |
| KVProtocol.ValueStays | KVserver/kvserver.cpp:88-141 | a value stays as it is until an SKDEL or SKMOD names its key |
| KVProtocol.ShortRequestsFit | KVserver/kvserver.cpp:61-70 | a request of at most 256 characters has at most the 128 tokens that `kvlist` holds |
| KVProtocol.LongerRequestsOverflow | KVserver/kvserver.cpp:61-70 | one of 257 characters fits the buffer and has 129 tokens |
| KVServer.Session.Set | KVserver/kvserver.cpp:88-105 | the SKSET case on the skip list does what it does to the map |
| KVServer.Session.Get | KVserver/kvserver.cpp:106-115 | the SKGET case, likewise |
| KVServer.Session.Del | KVserver/kvserver.cpp:116-124 | the SKDEL case, likewise, which by `DelRemoves` removes the key, with an empty reply for a present key |
| KVServer.Replace | KVserver/kvserver.cpp:129-130 | SKMOD's delete and insert together replace one value |
| KVServer.Session.Mod | KVserver/kvserver.cpp:125-135 | the SKMOD case, likewise, with an empty reply on success |
| KVServer.Session.Count | KVserver/kvserver.cpp:136-141 | the SKCOUNT case, likewise |
| KVServer.Session.Reply | KVserver/kvserver.cpp:85-94 | the reply buffer is the text, cut off at 1023 characters, and NULs |
| KVServer.Session.FindCommand | KVserver/kvserver.cpp:77-80 | the loop finds the command's place in the table |
| KVServer.Session.ParserProtocol | KVserver/kvserver.cpp:72-148 | interpreting the tokens found in the buffer is one step of the map machine; without tokens nothing changes, and the old reply stays |
| KVServer.Session.HandleRequest | KVserver/kvserver.cpp:41-56 | receiving, cutting, interpreting and replying is one step of the map machine |
| KVServer.HandleClient | KVserver/kvserver.cpp:18-59 | the replies of a whole session, over buffers and skip list changed in place, are those of the map machine started on the empty map |
| Timers.Timer.constructor | time/time.cpp:24-35 | a timer is due its period after its creation |
| Timers.LessIsStrictTotal | time/time.cpp:5-22 | the comparator is a strict total order, nulls first, as long as no two timers share an address |
| Timers.TimerManager.LowerBound | time/time.cpp:165 | the first timer not less than the probe, whatever address the probe has |
| Timers.TimerManager.Find | time/time.cpp:41-44 | `find` locates a timer exactly when it is in the index: its deadline has not changed since it was put there |
| Timers.TimerManager.FindAndErase | time/time.cpp:56-61 | erasing takes out that timer and no other, and keeps the order |
| Timers.TimerManager.InsertTimer | time/time.cpp:117-118 | inserting under the lock never meets an equivalent timer, adds exactly this one, and keeps the order |
| Timers.TimerManager.AddTimer | time/time.cpp:107-114 | creation is one step of the run: armed, due after its period |
| Timers.TimerManager.Cancel | time/time.cpp:37-48 | cancelling is one step of the run, whose effect is `CancelExact`, and true for every timer that has its callback |
| Timers.TimerManager.Refresh | time/time.cpp:50-66 | refreshing is one step of the run, and true exactly for timers that have their callback |
| Timers.TimerManager.Reset | time/time.cpp:68-95 | resetting is one step of the run, and true exactly for an unchanged period not counted from now or a timer that has its callback |
| Timers.TimerManager.Reinsert | time/time.cpp:91-93 | period and deadline change only while the timer is out of the index |
| Timers.TimerManager.GetNextTimer | time/time.cpp:131-144 | 0 when the earliest deadline has passed, else the time to it, all ones without a timer |
| Timers.FrontIsEarliest | time/time.cpp:136 | the front of the index has the earliest deadline |
| Timers.TimerManager.CountDue | time/time.cpp:163-168 | the lower bound of the probe moved over equal deadlines is the end of the due timers, whatever address the probe gets |
| Timers.TimerManager.TakeDue | time/time.cpp:163-171 | exactly the timers with a deadline up to now leave the index, in its order |
| Timers.TimerManager.FireOne | time/time.cpp:174-182 | a fired timer hands out its callback; a recurring one goes back at now plus its period, a one-shot loses its callback |
| Timers.TimerManager.ListExpiredCb | time/time.cpp:146-183 | an expiry pass is one step of the run: the callbacks are those of exactly the due timers, one each, by deadline |
| TimerBook.ReachableSound | time/time.cpp:24-95 | in every reachable state a timer is armed exactly while it has a callback, its period is at most its deadline, and its start is not in the future |
| TimerBook.ResetKeepsStart | time/time.cpp:84-92 | resetting without counting from now never underflows and keeps the start, for every new period |
| TimerBook.AddExact | time/time.cpp:24-35 | a new timer is armed, has the callback, kind and period given, is due that period from now, and leaves every other timer alone |
| TimerBook.CancelExact | time/time.cpp:37-48 | a cancelled timer has no callback and is not armed; nothing else about it, and no other timer, changes |
| TimerBook.RefreshExact | time/time.cpp:50-66 | a refreshed timer that has its callback is due its period from now; nothing else changes, and without a callback nothing at all |
| TimerBook.ResetExact | time/time.cpp:68-95 | a reset timer that has its callback gets the period, and is due that period from now or from where its old period began, as asked; nothing else changes |
| TimerBook.ExpireExact | time/time.cpp:146-183 | an expiry pass puts every due recurring timer a period from now, takes the callback of every due one-shot, and changes no other timer; afterwards no armed deadline has passed, but for period 0 |
| TimerBook.FiresExact | time/time.cpp:163-182 | an expiry pass fires exactly the armed timers whose deadline has come, each once, and no other event fires any |
| TimerBook.OneShotOnce | time/time.cpp:174-181 | in any run a one-shot fires at most once, and not at all while it still has its callback |
| TimerBook.SilentForever | time/time.cpp:37-48 | a timer without callback, cancelled or fired, never fires again, however the run goes on |
| TimerBook.CancelledForGood | time/time.cpp:37-48 | in whatever run, a cancelled timer is never armed again, and never fires again |
| TimerBook.NeverEarly | time/time.cpp:24-31 | a recurring timer created at t0 and fired n times with an unchanged period has n periods behind it and the next deadline another period on, refreshed or not |
| TimerBook.NoTimerIff | time/time.cpp:131-144 | all ones is answered exactly when there is no timer, or at time 0 when the earliest deadline is all ones itself |
| TimerBook.LongestWaitLooksLikeNone | time/time.cpp:133-142 | that second case is reached by a run: a timer of the longest period added at time 0 |
| TimerBook.WaitBounded | time/time.cpp:139-142 | the wait is at most the period of the timer in front |
| TimerBook.WaitExact | time/time.cpp:131-171 | an expiry pass after waiting d has a timer to fire if and only if there is a timer and d is at least the answered wait |
| EventTable.AddEventSteady | iomananger/iomanager.cpp:97-123 | `addEvent` keeps context, kernel and counter in agreement if and only if the event is not registered yet |
| EventTable.DelEventSteady | iomananger/iomanager.cpp:139-154 | `delEvent` keeps them in agreement always, as far as the events go; `ExactAfter` says what becomes of EPOLLET |
| EventTable.CancelEventSteady | iomananger/iomanager.cpp:170-184 | `cancelEvent` keeps them in agreement if and only if its event is the only one registered, or none is and READ is asked for |
| EventTable.ExactAfter | iomananger/iomanager.cpp:116-313 | after any operation under its guard the kernel's mask is exactly EPOLLET and the registered events if and only if a mask was sent other than by a `delEvent` that leaves the other event registered, or none was sent and the mask had been exact |
| EventTable.FailureClears | iomananger/iomanager.cpp:293-303 | after a reported error or hang-up nothing stays registered on the fd if and only if WRITE was not registered or was reported too, since only READ is added to the report |
| EventTable.CancelAllSteady | iomananger/iomanager.cpp:199-216 | `cancelAll` keeps them in agreement always |
| EventTable.ReportSteady | iomananger/iomanager.cpp:293-322 | the event loop body keeps them in agreement if and only if all or none of the events it acts on are registered |
| EventTable.TriggerMoves | iomananger/iomanager.cpp:28-39 | a trigger turns the one waiter of a registered event into one task and leaves its context empty |
| EventTable.AddEventDoes | iomananger/iomanager.cpp:97-123 | `addEvent` registers the callback, or else the running coroutine, for its event; nothing is delivered or removed, and the other event is as it was |
| EventTable.DelEventDoes | iomananger/iomanager.cpp:139-154 | `delEvent` removes the waiter of its event if there is one, delivers nothing, and leaves the other event as it was |
| EventTable.CancelEventDoes | iomananger/iomanager.cpp:170-184 | under its guard `cancelEvent` delivers the waiter of its event if there is one, removes nothing, and leaves the context empty |
| EventTable.CancelAllDoes | iomananger/iomanager.cpp:199-216 | `cancelAll` delivers the waiters of all registered events, READ before WRITE, removes nothing, and leaves the context empty |
| EventTable.ReportDoes | iomananger/iomanager.cpp:293-322 | under its guard the event loop delivers the waiters of exactly the registered events reported, and of READ on an error or hang-up, READ before WRITE; it removes nothing, and leaves the other event as it was |
| EventTable.EpollCtlExact | iomananger/iomanager.cpp:118 | what the kernel watches after each control call, and which it refuses |
| EventTable.OnFdExact | iomananger/iomanager.cpp:83-217 | every operation keeps agreement (of the events; EPOLLET is in `ExactAfter`) and accounts on its fd if and only if its guard holds of the events registered there |
| EventRuns.CoveringKeeps | iomananger/iomanager.cpp:74-95 | growing the table covers the fd, loses no context, and keeps every agreement |
| EventRuns.CoveringSize | iomananger/iomanager.cpp:91-94 | it grows only for an fd it does not cover, to one and a half times that fd, and is 32 at the start |
| EventRuns.StepExact | iomananger/iomanager.cpp:83-217 | the invariant of the whole table, as in `ReachableInv`, survives an operation if and only if its guard holds |
| EventRuns.ReachableInv | iomananger/iomanager.cpp:74-322 | in every state of every run the kernel watches exactly the events that the contexts have registered (edge-triggered or not is in `ExactIff`), no `epoll_ctl` was refused and no assert failed, the counter is the number of set bits, and for each waiter registrations are deliveries plus removals plus those waiting |
| EventRuns.LogsExact | iomananger/iomanager.cpp:74-322 | in every run, registered are exactly the waiters of the `addEvent`s, removed exactly those a `delEvent` named, and delivered exactly those of registered events that were cancelled or reported, each in order |
| EventRuns.ExactIff | iomananger/iomanager.cpp:83-322 | in every state of every run, the kernel's mask for an fd is edge-triggered and exact if and only if the last operation on it that sent a mask was not a `delEvent` that left the other event registered |
| EventRuns.AllExact | iomananger/iomanager.cpp:83-322 | without such a `delEvent` every mask is edge-triggered and exact all along |
| EventRuns.DelLosesEdge | iomananger/iomanager.cpp:143-152 | a run that registers both events: deleting READ then leaves WRITE watched without EPOLLET |
| EventRuns.FailureMissesWrite | iomananger/iomanager.cpp:293-307 | after a run that registers only WRITE on an fd, a reported error changes nothing and wakes nobody |
| EventRuns.CancelBreaksAgreement | iomananger/iomanager.cpp:170-182 | after the same run, cancelling READ leaves the kernel watching for it |
| EventRuns.QuietMeansDone | iomananger/iomanager.cpp:230-232 | when nothing is pending, every registration has been delivered or removed, as often as it was made |
| IOManagers.IOManager.constructor | iomananger/iomanager.cpp:42-61 | a new manager has 32 empty contexts and nothing watched or pending |
| IOManagers.FdContext.SetEventContext | iomananger/iomanager.cpp:13-26 | the context of one event is replaced, the other left alone |
| IOManagers.FdContext.TrigerEvent | iomananger/iomanager.cpp:28-39 | the bit is cleared, the waiter swapped out of its context and handed on |
| IOManagers.IOManager.ContextResize | iomananger/iomanager.cpp:74-81 | the vector gets its size; old contexts stay, new slots get contexts of their own |
| IOManagers.IOManager.EpollControl | iomananger/iomanager.cpp:118 | the kernel refuses to add what it watches and to change or delete what it does not |
| IOManagers.IOManager.AddEvent | iomananger/iomanager.cpp:83-124 | `addEvent` on the objects is its step on the table, and returns 0 |
| IOManagers.IOManager.DelEvent | iomananger/iomanager.cpp:125-155 | `delEvent`, likewise, and true exactly if the event was registered |
| IOManagers.IOManager.CancelEvent | iomananger/iomanager.cpp:156-185 | `cancelEvent` under its guard, likewise, and true exactly if its event was the one registered |
| IOManagers.IOManager.CancelAll | iomananger/iomanager.cpp:186-217 | `cancelAll`, likewise, and true exactly if anything was registered |
| IOManagers.IOManager.HandleReport | iomananger/iomanager.cpp:290-322 | the event loop body for one reported context, likewise |
| IOManagers.IOManager.RealEvents | iomananger/iomanager.cpp:293-303 | the events acted on, collected from the report and the context |
| IOManagers.IOManager.HandleReports | iomananger/iomanager.cpp:282-323 | the loop over the reports is their steps one after the other; the wake-up descriptor changes nothing |
| SchedulerSteps.FirstEligible | scheduler/scheduler.cpp:126-145 | the entry a scan takes is the first one that is not pinned elsewhere and not a coroutine in state EXEC |
| SchedulerSteps.StepAccounts | scheduler/scheduler.cpp:119-198 | every step keeps the active count equal to the number of workers between take and decrement, lost ones included, and the idle count to those in the idle phase or gone by way of it; keeps every ticket in one place; and keeps the queue in the order of adding |
| SchedulerSteps.TakeAccounts | scheduler/scheduler.cpp:139-142 | a take moves one entry from the queue to one worker and counts that worker |
| SchedulerSteps.ResumeAccounts | scheduler/scheduler.cpp:153-185 | the three branches of `run` keep the accounts; the third finishes its task uncounted, and a lost thread stays counted with its task |
| SchedulerSteps.RequeueAccounts | scheduler/scheduler.cpp:156-157 | a READY coroutine comes back as a new entry |
| SchedulerSteps.StepExec | selfco/selfco.cpp:65-77 | after every step a coroutine in state EXEC is being run by some worker, or is the one a worker was lost in |
| SchedulerSteps.StepShape | scheduler/scheduler.cpp:187-198 | a step moves one worker; idle returns only when `stopping()` is true, a worker leaves only by a scan that finds nothing after that, and is lost only in a coroutine that had ended |
| SchedulerSteps.StrandsNone | scheduler/scheduler.cpp:126-148 | what the last leaving worker passes over is pinned elsewhere, because nothing can be in state EXEC any more |
| SchedulerSteps.StepInv | scheduler/scheduler.cpp:107-212 | every step keeps the whole invariant |
| SchedulerRuns.ReachableInv | scheduler/scheduler.cpp:107-212 | the invariant holds in every state of every run, for any number of workers and any interleaving |
| SchedulerRuns.EveryTaskSomewhere | scheduler/scheduler.cpp:119-185 | every accepted task is queued, with a worker, or finished, and taken and finished at most once; finished means that this queueing is done with, while its coroutine may be parked in HOLD |
| SchedulerRuns.StoppingMeansDone | scheduler/scheduler.cpp:208-212 | when `stopping()` is true nothing is queued and nobody is active, and each accepted task is finished or was just counted off and may come back as READY |
| SchedulerRuns.OldestFirst | scheduler/scheduler.cpp:126-145 | of what a worker may run it takes the task that was added first |
| SchedulerRuns.LeftAfterStopping | scheduler/scheduler.cpp:182-198 | a worker that has left by way of idle saw `stopping()` true in its idle phase, and after that a scan found nothing for it |
| SchedulerRuns.NoneStrandedIff | scheduler/scheduler.cpp:107-200 | once every thread has ended, by way of idle or lost, each accepted task is finished or queued and pinned if and only if no thread was lost |
| SchedulerRuns.NobodyLostIff | selfco/selfco.cpp:96-107 | no thread is lost in a run if and only if no step of it resumes a task's coroutine that has ended and is not in state TERM: nothing is behind its last yield and its `uc_link` is null |
| SchedulerRuns.LostBlocksStopping | scheduler/scheduler.cpp:154-155 | once a thread is lost its count stays raised, and `stopping()` is false for ever |
| SchedulerRuns.LostKeepsOthers | scheduler/scheduler.cpp:187-198 | then no worker whose idle had not returned by that time ever leaves |
| SchedulerRuns.NoneStranded | scheduler/scheduler.cpp:107-200 | once every worker has left by way of idle, each accepted task is finished or still queued and pinned to a thread: none that any thread could run is stranded (threads that end by being lost are in `NoneStrandedIff`) |
| SchedulerRuns.FinishedIff | scheduler/scheduler.cpp:126-148 | a queued task, unless it is a coroutine pinned to a thread, is finished by the time every worker has left if and only if, at any moment it is queued, some worker that may run it has not left |
| SchedulerRuns.FinishedOnlyIf | scheduler/scheduler.cpp:126-148 | for a pinned coroutine that condition is necessary; `PinnedCoroutineCanBePassedOver` shows that it is not sufficient |
| SchedulerRuns.MadeIsNew | scheduler/scheduler.cpp:167 | a coroutine made for a callback is none that has a state, is queued, or is in the hands of a worker |
| SchedulerRuns.AllFinished | scheduler/scheduler.cpp:107-200 | if no coroutine was ever set READY, then once every worker has left the queue is empty and every queueing of a task, pinned or not, is done with |
| SchedulerCoroutines.ScanTakes | scheduler/scheduler.cpp:126-145 | a scan takes the first task that is not pinned to another thread and not a coroutine in state EXEC, and leaves the others in place |
| SchedulerCoroutines.ScanFindsNone | scheduler/scheduler.cpp:182-198 | without such a task the worker goes idle, or leaves if its idle has returned |
| SchedulerCoroutines.PlacesExact | scheduler/scheduler.cpp:153-198 | the order in which a worker goes through `run` with a task, and back to the scan after idle |
| SchedulerCoroutines.PinnedStaysAtHome | scheduler/scheduler.cpp:129-133 | in every state of every run a worker holds no task that is pinned to another thread |
| SchedulerCoroutines.StatesExact | selfco/selfco.cpp:65-107 | a resumed coroutine is in EXEC, one whose function has ended in TERM, one that yielded in HOLD; after `run` is done with it, READY stays, TERM becomes INIT in a callback's coroutine, and anything else HOLD; no other step changes a state but `setState` |
| SchedulerCoroutines.EndedExact | selfco/selfco.cpp:85-107 | a coroutine has ended from the yield after its function on until it is reset, to the next callback or when its worker found it in TERM |
| SchedulerCoroutines.ResumeExact | scheduler/scheduler.cpp:153-185 | a worker runs the coroutine it holds unless that is in TERM, else its callback in its own coroutine, else nothing; resuming a coroutine that has ended loses it |
| SchedulerCoroutines.ConcludeExact | scheduler/scheduler.cpp:156-180 | the worker adds its coroutine again exactly if it finds it READY |
| SchedulerCoroutines.QueueExact | scheduler/scheduler.h:100-108 | added is the task given, or a READY coroutine unpinned, at the end of the queue; no step but a scan takes anything out |
| SchedulerCoroutines.FlagsExact | scheduler/scheduler.cpp:36-69 | `stop` sets both flags, `start` clears one, and no other step touches them |
| SchedulerCoroutines.CbCoExact | scheduler/scheduler.cpp:163-180 | a worker gets a coroutine for callbacks by running one, and gives it up when it puts it on HOLD or adds it again, in no other way |
| SchedulerCoroutines.KeptExactly | scheduler/scheduler.cpp:163-180 | in every state of every run, a worker that is not in a callback has a coroutine for the next one if and only if it found it in TERM when it was done with a callback in it, and has had it since |
| SchedulerCoroutines.KeptOnlyIfShared | scheduler/scheduler.cpp:175-177 | if nobody sets TERM, that happens only while another worker is ending the same coroutine |
| SchedulerCoroutines.NoneKeptUnshared | scheduler/scheduler.cpp:178-180 | with neither, no worker outside a callback has a coroutine for callbacks |
| SchedulerCoroutines.OneCallbackEach | scheduler/scheduler.cpp:163-180 | as long as no worker finds its callback's coroutine in TERM, no coroutine runs two callbacks |
| SchedulerCoroutines.CoroutineOfItsOwn | scheduler/scheduler.cpp:163-180 | if nobody sets TERM and no worker is done with a callback while another is ending its coroutine, every callback is run in a coroutine made for it, and in no other callback's |
| StrandedTask.KeptThoughNobodySetsTerm | scheduler/scheduler.cpp:175-177 | the second condition is needed: a run without `setState` in which a callback adds the coroutine it runs in, another worker runs that to its end, and the first keeps it while the other is still in it |
| StrandedTask.PinnedCanBeStranded | scheduler/scheduler.cpp:155-157 | with READY that is false: a run in which both workers leave while an accepted pinned task is queued |
| StrandedTask.PinnedCoroutineCanBePassedOver | scheduler/scheduler.cpp:135-138 | a run in which a coroutine pinned to a thread is queued before that worker leaves, is passed over because it is in state EXEC by way of another entry, and is still queued when everybody has left |
| StrandedTask.LostThreadStrands | selfco/selfco.cpp:96-107 | with one worker and a coroutine queued twice, a run in which the thread is lost and an unpinned task is still queued |
| Schedulers.Scheduler.constructor | scheduler/scheduler.cpp:9-25 | a new scheduler is stopped, not stopping by itself, with no task and no history |
| Schedulers.Scheduler.Reachable | scheduler/scheduler.cpp:107-212 | the state of the object is one that some run leads to, so everything said of runs holds of it |
| Schedulers.Scheduler.Start | scheduler/scheduler.cpp:36-50 | `start` does nothing unless stopped, else starts all threads |
| Schedulers.Scheduler.Stop | scheduler/scheduler.cpp:52-69 | `stop` sets both flags, in this order |
| Schedulers.Scheduler.IsStopping | scheduler/scheduler.cpp:208-212 | `stopping` reads both flags, the queue and the active count |
| Schedulers.Scheduler.AddTask | scheduler/scheduler.h:37-50 | one task goes to the end of the queue; tickle exactly when the queue was empty |
| Schedulers.Scheduler.AddTaskNoLock | scheduler/scheduler.h:100-108 | an empty task is not queued |
| Schedulers.Scheduler.AddTasks | scheduler/scheduler.h:52-66 | the callbacks of a range are queued in order, empty ones left out, and every slot of the range is left empty by the swap; tickle exactly when the queue was empty and the range was not |
| Schedulers.Scheduler.Search | scheduler/scheduler.cpp:126-145 | the loop over the list stops at the first eligible task, and its assert never fails |
| Schedulers.Scheduler.TakeTask | scheduler/scheduler.cpp:123-151 | the locked scan takes that task and counts the worker, or leaves everything alone; tickle exactly when it passed a task pinned elsewhere or left tasks behind the one taken |
| Schedulers.Scheduler.ResumeTask | scheduler/scheduler.cpp:153-154 | the first branch resumes the coroutine of the task; the thread is gone exactly if that coroutine has ended |
| Schedulers.Scheduler.ResumeCallback | scheduler/scheduler.cpp:163-170 | the second branch resets the worker's coroutine to the callback, or makes one, and resumes it |
| Schedulers.Scheduler.RunInside | selfco/selfco.cpp:65-107 | what a coroutine does until `resuem` returns: it adds its tasks, and yields, after TERM if its function has ended |
| Schedulers.Scheduler.AfterResume | scheduler/scheduler.cpp:155-180 | what follows `resuem` in both branches: counted off, then added again if READY |
| Schedulers.Scheduler.Dispose | scheduler/scheduler.cpp:156-180 | READY is left alone, TERM empties a callback's coroutine for the next one, anything else is put on HOLD and a callback's coroutine given up |
| Schedulers.Scheduler.GoIdle | scheduler/scheduler.cpp:187-198 | without a task the worker counts as idle and resumes idle; the thread ends exactly if idle had returned before |
| Schedulers.Scheduler.IdlePass | scheduler/scheduler.cpp:201-206 | a pass of `idle` returns if and only if `stopping()` is true |
| Schedulers.Scheduler.RunTask | scheduler/scheduler.cpp:153-186 | with a task in hand the steps are those of one of the three branches, in order, whatever the others do in between |
| Schedulers.Scheduler.RunTurn | scheduler/scheduler.cpp:119-199 | one turn of the loop of `run`, over its local variables: this worker's steps are a scan and those of an idle pass or of a branch, in order; it is the last turn if and only if the thread has left or is lost, and the thread leaves exactly when its idle had returned and there was nothing for it |
| Shutdown.NobodyActs | iomananger/iomanager.cpp:242-250 | once idle has returned everywhere, with nothing queued or active, nobody can register, report or use a timer any more |
| Shutdown.IdleReturnIsQuiet | iomananger/iomanager.cpp:230-250 | when idle returns in the IO manager, nothing is queued, active or pending, and no timer is armed |
| Shutdown.ReachableCalm | iomananger/iomanager.cpp:230-325 | in every state of every run of scheduler, event table and timers together, without READY: all three invariants hold, and once idle has returned everywhere nothing is queued, active, pending or armed |
| Shutdown.ReachableTied | iomananger/iomanager.cpp:28-39 | in every state of every run each delivered waiter, and each firing of a timer, has a queued task of its own: the waiter's callback or coroutine, or a callback; and a timer has as many of them as it has fired |
| ShutdownParts.SchedulerPart | iomananger/iomanager.cpp:28-39 | in every run of the whole, the scheduler goes through a run of its own machine, in which the woken waiters and the callbacks of the timers due are among the tasks added, so everything said of such runs holds here |
| ShutdownParts.TablePart | iomananger/iomanager.cpp:83-322 | likewise the event table, by the operations on fds |
| ShutdownParts.TimerPart | time/time.cpp:24-183 | likewise the timers, by their events |
| ShutdownParts.FiringsCallTheirOwn | iomananger/iomanager.cpp:274-280 | the task of every firing is the callback that its timer was added with, for any thread |
| Shutdown.NothingLeftBehind | iomananger/iomanager.cpp:62-72 | without READY, once every worker has left, every queueing of a task is done with, every waiter registered was removed, or delivered and its own task finished exactly once, every firing of a timer had a task of its own that is finished once, no context holds a waiter, the kernel watches nothing, and no timer is armed |

## Left out

- Skip list: the old duplicate `skiplist/skiplist.cpp`, which is not built; `display_list` and all logging; the mutex, since each operation is one step; `set_value`, which nothing calls, so values are constants; `update[]` is a sequence in a local variable, not an array; the 32-bit width of the count.
- Random draws, the clock, addresses and received bytes are parameters. That the drawing loop of `get_random_level` ends is assumed: its argument counts the odd draws.
- Key and value type of the codec are a 32-bit int and string, for which `load_file` is written; opening and closing the file is not modelled, its text is a parameter.
- KVServer.HandleClient: requests come with a NUL, since only one byte of the buffer is cleared before `recv`, fit 1023 characters and 128 tokens (`KVProtocol.LongerRequestsOverflow` shows one that does not), and give every token their command uses, since `kvlist` keeps the places of earlier requests.
- KVServer.Session.HandleRequest: the same of one request.
- KVServer.Session.ParserProtocol: the same of the tokens; the return codes for null pointers, and the failing branches of socket calls.
- Timers.TimerManager.Cancel: nothing is said of the result for a timer without callback, since the function then ends without a return statement.
- Timers: each operation is atomic, although the lock is released by the first re-insertion in an expiry pass; `m_tickled` is never cleared, so wake-ups of a front insertion promise nothing; sums of 64-bit times do not overflow; an address is not reused.
- IO manager: `epoll_ctl` fails only for an fd that is present or absent when it should not be; the read and write locks around growing the table; the timeouts of `epoll_wait`.
- IOManagers.IOManager.constructor: the wake-up descriptor is not in the modelled interest set; a report of it is an entry without an fd.
- IOManagers.FdContext.TrigerEvent: requires a scheduler in the context, which the code dereferences unchecked; every registered event has one.
- IOManagers.IOManager.AddEvent: requires that the event is not registered, since the assert fails otherwise; the failing return is not modelled, since it cannot happen in agreement.
- IOManagers.IOManager.CancelEvent: requires the exact condition under which it keeps the agreement.
- IOManagers.IOManager.HandleReport: requires that the report is for events all registered or all not, since the loop triggers the unregistered ones too.
- IOManagers.IOManager.HandleReports: the same of each report, at its turn.
- Scheduler: `use_caller` mode and joining the threads; context switching, stacks and shared pointers. A test of a coroutine's state and the write or resume that depends on it are one step, and so are all of what `Conclude` stands for and a scan with the idle count that follows it.
- Schedulers.Scheduler.Start: a second start after a stop is not modelled.
- SchedulerRuns.NoneStranded: tasks come from outside only until both flags of `stop()` are set; afterwards only running tasks, the idle phase and READY coroutines add any. Nobody but `resuem` sets EXEC, and a thread's main coroutine, which is in EXEC from birth and so never eligible, is not queued. A coroutine without a function, such as an emptied one of a callback, is run like any other.
- Scheduler: that one coroutine is run by one worker at a time is not a property of the code, which sets HOLD before it switches; that a worker leaves at all is not claimed.
- Shutdown.NothingLeftBehind: events and timers are used by running tasks, and from outside only until both flags of `stop()` are set; `stopping()` and `getNextTimer()` are asked in one step, at a time later than 0; whether a waiter is a callback or a coroutine is left open. The pass of `IOManager::idle` is in the moves of this machine and in the methods of the single classes, not in one method over all of them.
- Sockets, addresses, the accept loop, hooks and `FdCtx` are plumbing over the operating system.
