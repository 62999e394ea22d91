# What tug promises, proved

A model of the stateful and algorithmic parts of tug, a Go web framework, and proofs of what they promise. Each module
models one source file or one promise that spans several. Code that changes state step by step is a class or a method
with loops here, proved against a function or a relation on values, and the promises are proved of that.

| modules | what they are about |
|---|---|
| StoreContract, MemoryStore, HoldLimits, QueueRuns, QueueSafety, QueueRecord, QueueWorker, QueueSchedules | the job queue as a protocol: the Store's contract as steps on a state, the in-memory Store that keeps it, runs of any number of workers that claim, report, crash and hold back, and what every run keeps, by what was pushed and reported |
| Calendar, Cron, CronCycle, CronZone, CronParse, CronText | cron expressions: the skipping search over the Gregorian calendar, and when it gives up rightly; the search over a zone's stretches of one offset; and reading an expression, as what it was written to say |
| Sessions, SessionLaws, KeptSessions, FlashForms, KeptFlash | a visitor's session: in the cookie, or kept by a Keeper; and flash data on its way to a page, in either |
| PropPaths, PropTree, PartialReloads, LabelPlaces, EmptyKeys | Inertia's props as the server works them out, level by level, for visits and partial reloads, and the labels that go with them |
| PageMerge, MergedProps, OnceProps, OncePages, OnceLabels, OnceRuns | the client, which merges answers as their props say, and keeps once props, against a client that keeps nothing |
| Cbor, CborCodes, CborWriter, Utf8Text | the CBOR that WebAuthn writes (RFC 8949, section 3), decoded if and only if it is well-formed, its text (RFC 3629, section 3), and authenticator data |
| JsonBody, JsonText, JsonFields, JsonDominance, JsonForms | JSON bodies read as forms: round trips, the fields of embedded structs, and the rewriting of strings |
| NilTypes, EmptyNils | the search of types for what may be nil, and the emptying of nil slices and maps |
| CacheStore, Throttles, Broadcast, Histogram | structures that must agree with simpler ones: swept maps, locks, throttles, event streams, and a histogram |
| Flights | a value that many callers want at once, worked out by one while the others wait |

`dafny verify dfyconfig.toml` checks all of it.

## Where the code does something else than it says

Each of these is proved, with an input for the first half and the exact condition for the second.

- A late report leaves a job alone once a later claim took it, says `queue/store.go:66-71`. It does, exactly when some later
  claim was not held back: a hold-back takes its attempt back, so the number is the earlier claim's again
  (`QueueSafety.ReportHeardExactlyWhen`, `QueueSafety.LateDoneIsHeard`).
- A hold-back puts a job back as its claim found it, exactly when the key it is given is the one the job had, or is taken: a
  unique job that is run again has no key, and is given one (`QueueSafety.HoldBackUndoesClaim`, `QueueSafety.HoldBackGivesKey`).
- A kept session stays with the one in the cookie while requests are no further apart than its lifetime less a minute; but
  the time is counted from the last cookie that was written, and a request that passes its session writes none
  (`KeptSessions.PassedTimeCounts`, `KeptSessions.SeenAlikeExactlyWhen`).
- A cron field panics exactly when a step of it and the value it starts from are past the largest integer: the sum overflows,
  and the shift by it panics (`CronParse.SetBits`, `CronParse.StepPanicsExactly`, `CronParse.MinuteStepPanics`).
- The cron search gives up after the eighth year on, with no time, on some expressions that come round later. It never does
  exactly when, of 400 years of the calendar, no minute is named, or each year has one named from its last minute to the end
  of the eighth year on (`Cron.GivesUpTooSoon`, `CronCycle.GivesUpRightlyExactly`).
- A client that holds once props shows the page of one that holds none, except that a deferred or optional once prop that is
  held is shown at once, and that one whose time runs out between the request and its answer is neither sent nor put back
  (`OnceRuns.RunShowsPages`, `OnceRuns.HeldDeferredIsShown`).
- What is under an empty key at the top of a page is lost to a partial reload that asks for it, or sent to one that does not.
  Every node goes by its own path exactly when no branch is under such a key that holds what can be noticed, or else no reload
  that gets to it goes out (`EmptyKeys.EmptyKeyLosesItsProps`, `EmptyKeys.AlwaysByPathExactly`).
- What works a cached value out runs once at a time for a key, says `cache/cache.go:125-127`. It does, unless callers waited for
  a flight that came to nothing they can use: those that did are all at work at once, and beside one that comes anew
  (`Flights.TwoAtWork`, `Flights.OneAtWork`, `Flights.BothAtWorkExactly`, `Flights.BesideNewExactly`).

## Model

| member | source | states |
|---|---|---|
| MemoryStore.Memory.Push | queue/queuetest/queuetest.go:47-52 | the in-memory Store's push keeps the job, under the next ID, due at its time, as the contract's push does |
| MemoryStore.Memory.PushUnique | queue/queuetest/queuetest.go:70-80 | keeps the job only when none of its kind waits under its key, and says which |
| MemoryStore.Memory.PushLatest | queue/queuetest/queuetest.go:88-99 | moves the job that waits under the key to the new time, and no other, or pushes one |
| MemoryStore.Memory.PushScheduled | queue/queuetest/queuetest.go:54-68 | records a run only when it is later than the schedule's last, with its job or one that waits for it |
| MemoryStore.Memory.AtItsLimit | queue/queuetest/queuetest.go:151-162 | counts exactly the jobs of the kind that claims hold now |
| MemoryStore.Memory.Claim | queue/queuetest/queuetest.go:164-185 | returns a job due soonest of those that no hold, limit, key or hold-back keeps from it, or none when there is none |
| MemoryStore.Memory.Done | queue/queuetest/queuetest.go:187-192 | removes the job only while the claim that reports has it |
| MemoryStore.Memory.Retry | queue/queuetest/queuetest.go:194-203 | puts it back, due at its time, only while the claim that reports has it |
| MemoryStore.Memory.Fail | queue/queuetest/queuetest.go:205-218 | keeps it as failed, only while the claim that reports has it |
| MemoryStore.Memory.HoldBack | queue/queuetest/queuetest.go:107-127 | puts it back with its attempt and its key, unless another waits under that, and holds its kind back |
| MemoryStore.Memory.RunAgain | queue/queuetest/queuetest.go:236-247 | starts a failed job over, and no other |
| QueueRuns.InvariantNext | queue/store.go:66-194 | every step of pushes, claims, reports, crashes, hold-backs and time keeps all of what follows from the invariant |
| QueueRuns.InvariantAfter | queue/store.go:66-194 | so does every run, of any number of workers |
| QueueSafety.FencingTokens | queue/store.go:66-81 | no two unreported claims of a job share an attempt number, though hold-backs take numbers back |
| QueueSafety.HoldsNeverOverlap | queue/store.go:76-80 | while a claim's hold lasts it has its job alone, its report is heard, and no claim can return the job |
| QueueSafety.ReportHeardExactlyWhen | queue/store.go:66-71 | a report is heard if and only if all claims after its own were held back, and the job is not failed |
| QueueSafety.LateDoneIsHeard | queue/store.go:66-71 | a run in which a late Done removes a job that a later claim took |
| QueueSafety.NoJobIsLost | queue/store.go:60-92 | every job pushed is kept or done, and never both |
| QueueSafety.StatusMoves | queue/store.go:72-92 | what a step may do to each job: only its claim's Done makes it done, only its claim's Fail failed |
| QueueSafety.StartsUntried | queue/store.go:60-62 | whichever push keeps a job, and a new start of a failed one, leave it with no attempts and no claim |
| QueueSafety.LimitsHold | queue/store.go:150-165 | at any time no more than n jobs of a kind whose jobs all say n are held |
| QueueSafety.OneAtATime | queue/store.go:136-149 | no two one-at-a-time jobs of a kind and key are held at once |
| QueueSafety.OneWaitsPerKey | queue/store.go:111-135 | at most one job of a kind waits under a key, and no claim holds it |
| QueueSafety.HeldBackKindWaits | queue/store.go:176-194 | no claim of a kind that is held back comes before the time, whatever runs between |
| QueueSafety.RunsExactlyItsAttempts | queue/queue.go:281-373 | a job that always fails from its first attempt on, unique or not, has run exactly its kind's attempts when it is kept as failed, however often it was held back |
| QueueSafety.HoldBackUndoesClaim | queue/store.go:180-194 | a hold-back undoes its claim if and only if the key it gives is the one the job had, or is taken |
| QueueSafety.HoldBackGivesKey | queue/queue.go:367-369 | a run in which a unique job that is run again is held back, and has its kind's key where it had none |
| QueueRecord.OneAtATimeByPush | queue/store.go:136-149 | no two jobs that were pushed to run one at a time, under one kind and one key, are held at once, after any run |
| QueueRecord.OneClaimAtATime | queue/store.go:136-149 | so no two claims of such jobs last at once |
| QueueRecord.LimitByPush | queue/store.go:150-165 | no more than n jobs of a kind are held at once when all were pushed with that limit |
| QueueRecord.OneWaitsByPush | queue/store.go:111-125 | no two jobs pushed under one key wait for their first claims |
| QueueRecord.TakesExactly | queue/store.go:76-80 | a claim may take a job if and only if it is due as was last said, not failed, not held, and kept waiting by no hold-back, no job of its pushed key and no pushed limit, and none that may be taken is due before it |
| QueueRecord.ClaimsAsSaid | queue/store.go:76-86 | a claim comes no sooner than the time last reported or pushed, and has the kind and payload that were pushed, and the error last reported |
| QueueRecord.KeptAsSaid | queue/store.go:82-92 | a job is due at the time last pushed, moved, retried or started over to, with the error it last failed with |
| QueueRecord.PushesExactly | queue/store.go:98-135 | which pushes keep a job of their own, by what waits and what is on record |
| QueueRecord.LatestMoves | queue/store.go:127-135 | the latest push of a key moves the job that waits to its time, and changes no other |
| QueueRecord.RunOnRecord | queue/store.go:98-109 | a schedule's record becomes the run's time exactly when it is later |
| QueueWorker.Worker.Run | queue/queue.go:281-350 | which report follows which outcome, and that the Store is told just that |
| QueueWorker.Worker.HeldBack | queue/queue.go:354-373 | when a job is put back unrun, with which key, and until when its kind waits |
| QueueWorker.Worker.PushAt | queue/kind.go:123-149 | the key, the limits and the flags a job is pushed with, and by which of the Store's pushes |
| QueueWorker.RunThatFails | queue/queue.go:281-350 | a worker whose handler always fails takes the steps that a job that always fails is said to take |
| QueueWorker.Backoff | queue/queue.go:420-428 | the wait is the fourth power of the attempt, and a tenth more at most, up to a day |
| QueueSchedules.PushScheduled | queue/queue.go:239-261 | a pass pushes each schedule's next run unless one ahead is taken to be pushed, through failures of the Store |
| QueueSchedules.TurnPushes | queue/queue.go:245-259 | a turn that is due keeps a job of the schedule's next run, with its payload, key and limits, but where that run is on record or a job of its key waits |
| QueueSchedules.PassLeavesARunAhead | queue/queue.go:239-261 | a pass alone leaves each schedule the Store answered for with a run later than the clock on record, if it comes round |
| QueueSchedules.AlwaysAhead | queue/queue.go:239-261 | from any reached state, an instance that starts, whatever the others do between its turns, through its restarts and failures of the Store: once answered for a schedule, a run later than its clock is on record from then on |
| QueueSchedules.PassIsTurns | queue/queue.go:239-261 | a pass is its turns, as steps of a run of the system |
| QueueSchedules.OnRecordNext | queue/store.go:98-109 | what an instance takes to be pushed stays on record through the steps of all others |
| QueueSchedules.RunsIncrease | queue/store.go:98-109 | the runs pushed for a schedule have strictly increasing times, in every run of the system |
| Cron.ClockAfter | queue/schedule.go:231-248 | the first named minute strictly after the time; none only when there is none through the eighth year on |
| Cron.NamesByDate | queue/schedule.go:231-256 | what an expression names by the date of the day: its month, its day of the month or of the week as its stars say, and the hour and minute |
| Calendar.DayAfterDay | queue/schedule.go:236-248 | each day's date is the one after the day before's, through months of their lengths and leap years, and its weekday the next |
| Calendar.FirstDay | queue/schedule.go:236-248 | and the days are counted from a known date and weekday |
| Cron.GivesUpOnlyOnNever | queue/schedule.go:231-248 | when starred day fields match every value, giving up means that no date ever matches |
| Cron.GivesUpTooSoon | queue/schedule.go:231-248 | and when one does not: a search that gives up on an expression that comes round twenty-eight years on |
| CronCycle.GivesUpRightlyExactly | queue/schedule.go:225-248 | a search gives up only on what never comes round, from whatever time, if and only if one 400-year cycle says so |
| CronCycle.StarsAreInTime | queue/schedule.go:231-248 | the cycle says so of any whose starred day fields match every value |
| CronCycle.MatchesRepeat | queue/schedule.go:231-248 | a minute is named if and only if the one a cycle on is |
| Cron.NextMultiple | queue/schedule.go:32-34 | the least multiple of the period after a time, before the zero time too |
| CronZone.NextIn | queue/schedule.go:258-295 | the first instant after the argument that the expression fires at, by the stars of its own minute and hour; or none, when nothing fires up to where the search of a stretch it came to gave up, or in the 64 stretches searched |
| CronZone.GaveUpOnFixed | queue/schedule.go:258-295 | when the search of a fixed expression gave up, what it names later is after the eighth year on, through whatever changes |
| CronZone.NextRuns | queue/schedule.go:258-295 | Next again and again gives, of an expression with a star in its minute or hour, every instant that the clock shows a named time at, and of one with none, one run for each named time, and no other |
| CronZone.AccountedOnce | queue/schedule.go:250-257 | every time on the clock has exactly one instant: its first showing, or the change that skips it |
| CronZone.NextSkipsNothing | queue/schedule.go:218-229 | repeated Next gives every instant that fires, in order, and no other |
| CronZone.NamedTimesRunOnce | queue/schedule.go:250-295 | repeated Next on a fixed expression runs each named time once, through changes of the clock both ways |
| CronParse.Value | queue/schedule.go:199-210 | a value is read if and only if it is one of the field's names or a number in its range |
| CronParse.ReadItem | queue/schedule.go:161-197 | an item is read as what it says, and refused only when it says nothing |
| CronParse.SetBits | queue/schedule.go:188-195 | all the values of an item are collected, and it panics if and only if the first step overflows |
| CronParse.StepPanicsExactly | queue/schedule.go:180-195 | a value with a step reads as a panic if and only if their sum is past the largest integer |
| CronParse.MinuteStepPanics | queue/schedule.go:180-195 | so 1/9223372036854775807 does, for a minute |
| CronParse.ReadField | queue/schedule.go:161-197 | a field matches exactly what its items cover; it is refused at the first that is none, or panics at the first that overflows |
| CronParse.ReadsOnce | queue/schedule.go:161-197 | no field reads in two ways: what it covers, an error and a panic exclude one another |
| CronParse.ReadInRange | queue/schedule.go:161-197 | a field that is read matches some value, and none out of its range |
| CronParse.ReadCron | queue/schedule.go:142-158 | each of five fields is what the expression matches by, with 7 as Sunday; it is refused as the first bad field is, or when it does not come round in the years from 2024 |
| CronParse.ParseCron | queue/schedule.go:132-159 | an expression's text is its five fields, or a name for them, and is read as they are; any other is refused |
| CronParse.WordsOfSpaced | queue/schedule.go:137-140 | fields with a space after each are the text's fields |
| CronParse.FieldsBetweenSpaces | queue/schedule.go:133-137 | spaces around a text that is no name change nothing |
| CronParse.CronReadsOnce | queue/schedule.go:132-159 | no expression reads in two ways |
| CronParse.AcceptedComesRound | queue/schedule.go:132-159 | one that is accepted comes round after any time, if its starred day fields match every value |
| CronText.WrittenIsRead | queue/schedule.go:161-197 | a list of numbers, ranges and stars, with steps or without, is read as exactly the values it says, in each of the five fields |
| CronText.WeekdaysByName | queue/schedule.go:36-52 | MON-FRI is read as the days from 1 to 5 |
| Sessions.Session.Reflash | session/session.go:280-286 | what the request before flashed is kept, under what this one flashed |
| Sessions.ClearedIsNew | session/session.go:224-236 | what is written of a session that was cleared is what a new one would have, under an ID no session had, and the row it was read from is gone |
| SessionLaws.RotatedIsNew | session/session.go:288-297 | a session that was rotated and is not left empty is written under an ID no session had, with its values and flash, its old row is gone, and all others stay |
| SessionLaws.RotatedOrAsItWas | session/session.go:498-524 | and when the Keeper fails, the rows and the cookie are as they were |
| SessionLaws.NextSeesRotated | session/session.go:288-297 | the next request in time sees what the rotated session held |
| SessionLaws.LastWrite | session/session.go:211-236 | a value is what the last Set, Delete or Clear of its key left, through all other calls |
| SessionLaws.LastFlash | session/session.go:257-286 | and what the next request is flashed is what the last Flash, Unflash or Clear of its key left |
| SessionLaws.LastLifetime | session/session.go:238-250 | a lifetime is the whole seconds of what was last set |
| SessionLaws.NextSees | session/session.go:342-399 | the next request sees the values and flash that this one left, up to the lifetime after, and nothing from then on |
| SessionLaws.PassedIsLeft | session/session.go:268-276 | a session that passes, unchanged and with nothing flashed, is left as it was |
| Sessions.Store.Load | session/session.go:342-372 | the session of a request is what its cookie, or the row its cookie names, says at the time |
| Sessions.Store.Save | session/session.go:432-487 | what is written to the cookie and the rows as the response starts, or left as it was |
| Sessions.Store.Keep | session/session.go:498-524 | the row is written unless the one it was read from will do; a Keeper that fails leaves both as they were |
| KeptSessions.SeenAlike | session/session.go:342-399 | a request in time sees the same session from the rows as from the cookie alone |
| KeptSessions.ServedAlike | session/session.go:432-524 | and leaves the two the same for the next |
| KeptSessions.KeptAsInTheCookie | session/session.go:342-524 | over any requests in time, through skipped writes, new IDs, clears, lifetimes and a session that began in the cookie |
| KeptSessions.SeenAlikeExactlyWhen | session/session.go:378-399 | a read agrees if and only if it is not between the row's own time and the cookie's |
| KeptSessions.LostIsLeftAlone | session/session.go:432-445 | a session whose Keeper does not answer is left as it was, whatever the handler does |
| KeptSessions.PassedTimeCounts | session/session.go:432-455 | requests a minute apart that see different sessions, as one that passed wrote no cookie |
| FlashForms.Ctx.PageRequest | forms.go:191-237 | what a page shows, and what it leaves in the session |
| FlashForms.Ctx.CarryFlash | forms.go:242-253 | what a redirect sends on, with the request's own over it |
| FlashForms.VisitIsTheBoxs | forms.go:191-280 | each visit does to what is left, and shows, what a box that redirects fill and pages in full empty would |
| FlashForms.PagesShowTheBox | forms.go:191-280 | so do all visits of any sequence |
| FlashForms.WaitsForThePage | forms.go:191-237 | what was left waits for the next page in full, and shows nowhere else |
| FlashForms.NotShownAgain | forms.go:156-165 | what is not left shows only on the page of the request that flashes it |
| FlashForms.FlashedOnceShownOnce | forms.go:191-280 | what a redirecting request flashed shows on exactly one page, the next in full, with its value |
| KeptFlash.VisitIsOps | forms.go:191-280 | a visit does to its session what one request of the session's own methods does |
| KeptFlash.KeptPagesAlike | forms.go:191-280 | over any visits in time, the pages of a kept session show what those of one in the cookie do |
| KeptFlash.KeptFlashShownOnce | session/session.go:342-524 | so what a redirecting request flashes in a kept session shows on exactly one page, the next in full |
| PropTree.Resolver.Level | inertia/props.go:542-622 | a level's props, its failures and its labels, in order, as worked out entry by entry |
| PropTree.Resolver.LeftOutOfFirstLoad | inertia/props.go:726-743 | which props a full visit leaves out, and what is noted of them |
| PropTree.Resolver.CollectMerge | inertia/props.go:753-783 | the labels a client merges a prop by |
| PropTree.SentUnderKey | inertia/props.go:542-622 | what went out under a key is what its own entry came to |
| PropPaths.WithinExactly | inertia/props.go:705-712 | being at a path or inside it is having its keys first, where no key has a dot |
| PropPaths.LeadsExactly | inertia/props.go:715-722 | leading to a path is being a proper beginning of its keys |
| PartialReloads.WantedByKeys | inertia/props.go:685-690 | the tests of path strings are tests of lists of keys |
| PartialReloads.WantedBefore | inertia/props.go:685-690 | what is wanted has everything on the way to it wanted |
| PartialReloads.FilteredByPath | inertia/props.go:542-622 | the level-by-level filter sends exactly the nodes whose own path passes, whole below props, and nothing else; but under an empty key at the top, only where it cannot be noticed, or is not reached |
| PartialReloads.WholeIsAll | inertia/props.go:539-541 | a prop that is asked for goes out whole: no path is looked at inside it |
| EmptyKeys.AlwaysByPathExactly | inertia/props.go:551-555 | every node goes by its own path in every partial reload if and only if nothing that can be noticed is in a branch under an empty key at the top, or no reload that gets there goes out |
| EmptyKeys.Misjudged | inertia/props.go:551-555 | whatever can be noticed there is lost to the reload of it, or sent to one of another key |
| EmptyKeys.EmptyKeyLosesItsProps | inertia/props.go:551-555 | a tree with an empty key whose inside is asked for and left out |
| LabelPlaces.LabelsExactly | inertia/props.go:542-622 | the labels of an answer are exactly those that the props at the places it comes to ask for, each in the list that is for it: appended, prepended, deep merged, matched, once, deferred and rescued |
| LabelPlaces.LabelsByKeys | inertia/props.go:694-702 | a partial reload's merge and once labels are for props whose keys were asked for, where they have no dots |
| LabelPlaces.AskedForIsLabeled | inertia/props.go:753-799 | a prop that goes out and was asked for has each of its labels, in the list that its own fields say, unless it is being reset |
| LabelPlaces.VisitSends | inertia/props.go:726-751 | a full visit sends data, and the props of the first load, but those that the client said it has and may keep, and no others |
| PageMerge.Merge | tugtest/merge.go:28-57 | the page after a reload: the answer over what there was, and each labeled path put together |
| PageMerge.JoinOne | tugtest/merge.go:63-85 | the lists at a path put together, without the client's items that come again |
| PageMerge.OnlyWhatCame | tugtest/merge.go:28-57 | a reload changes only the top-level props its answer carries, and replaces those it does not label |
| PageMerge.AppendedThere | tugtest/merge.go:42-44 | a path that is labeled, and that no other label is at, inside or around, has the client's list and the answer's after it |
| PageMerge.PrependedThere | tugtest/merge.go:45-47 | or the answer's before it |
| PageMerge.ListsMerged | tugtest/merge.go:63-97 | a list labeled once has the answer's items whole, after the client's or before them, without those of the client's that share a value of the field that the first label of its shape names, and no new repeat of it |
| PageMerge.DeepMergedThere | tugtest/merge.go:48-54 | or the two objects merged at every depth |
| PageMerge.UnlabeledStands | tugtest/merge.go:36-41 | and a path apart from all labels is the answer's, over the client's |
| PageMerge.DeepMergedByKeys | tugtest/merge.go:110-128 | merged at every depth, what the answer says stands, and where it says nothing the client's |
| PageMerge.PutTogether | tugtest/merge.go:63-85 | fresh items whole and in order, survivors in theirs, and no repeat that neither list had |
| PageMerge.SurvivorsInOrder | tugtest/merge.go:73-77 | what survives is exactly what no fresh item is the same as, in its order |
| PageMerge.PathsAreKeys | tugtest/merge.go:153-181 | reading and setting at a dotted path is reading and setting at its keys |
| MergedProps.MergedAsSaid | inertia/props.go:753-783 | what the client shows of a merge prop that was asked for: its list with the answer's after it, or before it, or the two merged at every depth, or so at the paths inside it, as the prop's own fields say |
| OnceProps.Client.Holding | tugtest/tugtest.go:407-414 | the client says it has what has not expired, and drops the rest |
| OnceProps.Client.Hold | tugtest/tugtest.go:382-402 | the page a client holds: merged, with what came learned, and what was left out put back |
| OncePages.PutBackShows | tugtest/merge.go:131-149 | a once prop put back where it was left out makes the page with it sent, and changes nothing where it was sent |
| OncePages.OnPage | inertia/props.go:726-743 | a once prop is on a page if and only if the visit did not leave it out |
| OnceLabels.ValueSound | inertia/props.go:786-799 | every once label is of a once prop of the tree, at its path |
| OnceLabels.VisitNames | inertia/props.go:726-743 | a full visit labels every once prop it comes to, left out or not |
| OnceRuns.LearnsWhatIsCurrent | tugtest/tugtest.go:389-399 | what a client holds stays what the app would send, whatever it visits or reloads |
| OnceRuns.RestoredIsPage | tugtest/merge.go:131-149 | putting back, in any order, makes the page with what is held shown |
| OnceRuns.PlainExactlyWhen | tugtest/merge.go:131-149 | that is the page of a client holding none if and only if none held is deferred or optional, and none ran out meanwhile |
| OnceRuns.RunShowsPages | tugtest/tugtest.go:382-414 | over any run of visits and reloads, from an empty client, after every visit |
| OnceRuns.Answered | tugtest/tugtest.go:364-376 | the resolver and the client, put together, take a step of the run |
| OnceRuns.HeldIsShown | inertia/props.go:727-738 | over any run, what is held of the once props that the first load leaves out is on the page of each visit at once, where the plain page lacks it |
| OnceRuns.HeldAsItCame | tugtest/tugtest.go:389-399 | over any run, whatever a client holds came with an answer, from its path there and with its value, and expires when that page said |
| OnceRuns.HeldDeferredIsShown | inertia/props.go:727-738 | a run in which it is so: a deferred prop is fetched, and the page visited again |
| Cbor.Decoder.Next | auth/cbor.go:38-126 | the decoder reads an item as it is defined at its place, and takes just its bytes |
| Cbor.Decoder.Take | auth/cbor.go:131-148 | an argument is its number, in itself or the 1, 2, 4 or 8 bytes after |
| Cbor.ItemUsesItsBytes | auth/cbor.go:38-126 | reading depends only on the bytes it uses |
| Cbor.ChecksRefuseNothing | auth/cbor.go:83-100 | the early length checks refuse no item that could be read |
| Cbor.CutOutDecodesAlone | auth/passkeys.go:346-350 | what is cut out by how much was decoded decodes alone to the same value |
| CborCodes.DecodesExactly | auth/cbor.go:26-148 | decoding gives a value and the bytes left if and only if the bytes are a well-formed encoding of the value, however long its arguments are, and those bytes |
| CborCodes.CodeReads | auth/cbor.go:38-126 | an encoding of a value reads as it wherever it is, lists and maps nested up to the limit |
| CborCodes.ReadIsCode | auth/cbor.go:38-126 | what reads is an encoding of what it reads as |
| CborCodes.KeysOnceExactly | auth/cbor.go:97-124 | a map's keys are taken if and only if each is an integer or text, and no two are the same |
| CborCodes.PairedAt | auth/cbor.go:97-124 | and each value is under the key before it |
| CborCodes.MinusThousandOfRfc | auth/cbor.go:38-126 | the example of -1000 in Appendix A of RFC 8949 |
| Utf8Text.TextExactly | auth/cbor.go:73-84 | text is accepted if and only if its bytes are the encodings of Unicode scalar values, one after the other |
| CborWriter.Append | auth/passkeytest/passkeytest.go:318-337 | what an authenticator writes, appended |
| CborWriter.WritesCode | auth/passkeytest/passkeytest.go:318-337 | what is written is the bytes of an encoding of its value |
| CborWriter.AppendHead | auth/passkeytest/passkeytest.go:339-351 | an item's head: its major type, and its argument in the fewest bytes |
| CborWriter.ShortestHead | auth/passkeytest/passkeytest.go:339-351 | no head with the same argument is shorter |
| CborWriter.DecodeUndoesWrite | auth/cbor.go:26-32 | decoding what was written, in front of any bytes, gives its value and exactly those bytes |
| CborWriter.ParseAuthData | auth/passkeys.go:325-362 | authenticator data is parsed if and only if it is laid out so, and then to just what is laid out |
| CborWriter.ParseKey | auth/passkeys.go:334-351 | its passkey is an ID and a key that decodes alone, wherever the rest begins |
| JsonBody.Write | jsonform.go:258-288 | a value as text, with its commas and colons |
| JsonBody.Decoder.Read | jsonform.go:220-255 | the value at a decoder's tokens, or none for tokens that make no value |
| JsonBody.ReadUndoesWrite | jsonform.go:220-288 | reading undoes writing, and leaves what comes after |
| JsonBody.WriteUndoesRead | jsonform.go:220-288 | writing what was read gives the tokens it was read from, each in its place |
| JsonText.WrittenIsText | jsonform.go:258-288 | what is written is read back by a reader that asks for a comma between each two and a colon after each key |
| JsonForms.Rewrite | jsonform.go:53-118 | the rewriting of a value for a type, with objects and lists compacted in place |
| JsonForms.CompactMembers | jsonform.go:74-97 | compaction in an array keeps the members it keeps, rewritten, in their order |
| JsonForms.KeptExactly | jsonform.go:49-53 | a value is left out if and only if it is an empty string for a bool, a number or a time |
| JsonForms.ReadAsSaid | jsonform.go:119-193 | text for a bool or a number becomes what it reads as, text for a time the time in RFC 3339, and what does not read, or is for no such type, is as it came |
| JsonForms.BoundFor | jsonform.go:74-97 | a member is bound for the type of the first field of its very name, or else of its name in another case, and is as it came where that is quoted or there is none |
| JsonForms.LosesOnlyEmpties | jsonform.go:74-97 | an object loses those members and no others, and reorders none |
| JsonForms.ListLosesOnlyEmpties | jsonform.go:98-116 | so does a list, of its items |
| JsonForms.ArrayLosesNone | jsonform.go:98-116 | an array of a fixed length loses none, and its empty strings stay |
| JsonForms.ChangedExactly | jsonform.go:53-118 | it says that it changed something if and only if it did |
| JsonForms.Idempotent | jsonform.go:53-118 | rewriting what is rewritten changes nothing |
| JsonFields.Candidates | jsonform.go:309-375 | the search ends, whatever holds what, with every struct that rises at its least depth, once or twice |
| JsonFields.SearchesByDepth | jsonform.go:319-375 | after k levels it has visited exactly what is above depth k, and counted what rises to it |
| JsonFields.NextLevel | jsonform.go:319-375 | a level rises from the one above it alone |
| JsonFields.TwicePassesNotOn | jsonform.go:347-355 | a struct two paths as long lead to that is there once |
| JsonDominance.Winners | jsonform.go:377-406 | of the fields sorted by name, those that win alone |
| JsonDominance.FieldsOf | jsonform.go:309-414 | for each name exactly the candidate alone at the least depth and tag, or none, in the order of declaration |
| JsonDominance.AloneWins | jsonform.go:391-406 | winning among the fields is winning among the structs' fields, each at its least depth |
| JsonDominance.FieldFor | jsonform.go:418-430 | the field a key names, or else one it names in another case |
| NilTypes.Visiting.TypeMayHoldNil | inertia/empty.go:160-182 | the search of types, which marks the structs it visits, and ends |
| NilTypes.NoFindsAll | inertia/empty.go:160-182 | a no comes with structs that hold only one another, and nothing that may be nil |
| EmptyNils.NoMeansNone | inertia/empty.go:149-182 | a no means that no value of the type holds a nil slice or map where it shows |
| EmptyNils.ChangesExactly | inertia/empty.go:46-144 | emptying changes a value if and only if it holds something nil |
| EmptyNils.EmptiedByPath | inertia/empty.go:46-144 | at every path into a value there is what there was, but empty slices and maps for the nil ones that are looked into, and no more than there was |
| EmptyNils.EmptiedHoldsNone | inertia/empty.go:46-144 | and leaves it of its type, with nothing nil to the depth it looks to |
| EmptyNils.EmptiedOnce | inertia/empty.go:46-144 | emptying twice is emptying once |
| EmptyNils.FixNils | inertia/empty.go:46-144 | the code that skips types and copies on the first change is the plain emptying, and says whether it changed |
| EmptyNils.EmptyAll | inertia/empty.go:17-30 | the same of the whole, to depth 64 |
| CacheStore.MemoryStore.Get | cache/memory.go:26-35 | a value that has not expired, or none |
| CacheStore.MemoryStore.Add | cache/memory.go:44-53 | keeps a value only where none lives |
| CacheStore.MemoryStore.Sweep | cache/memory.go:89-99 | drops exactly what has expired by the latest time seen |
| CacheStore.AnswersAlike | cache/memory.go:26-99 | each answer is that of a map never swept, but a DeleteIf's of a value that was swept, exactly then |
| CacheStore.RunsAlike | cache/memory.go:26-99 | over any run whose times never go back, every Get and Add is answered alike |
| CacheStore.FindsWhatWasPut | cache/memory.go:26-99 | over any such run, whatever is swept, a Get finds the value put under its key last until it expires, an Add adds exactly where there is none, and a DeleteIf deletes that value alone |
| CacheStore.FindsNoneAtFirst | cache/memory.go:26-99 | and there is none before any is put |
| CacheStore.Lock.Try | cache/lock.go:41-44 | taking a lock is adding its owner |
| CacheStore.Lock.Release | cache/lock.go:73-76 | letting go deletes it only while it is the owner's |
| CacheStore.StepKeepsLock | cache/lock.go:41-76 | no step frees or takes a lock that another has |
| CacheStore.OneOwner | cache/lock.go:41-76 | at most one owner has a lock at any time, over any run |
| Flights.Cache.Enter | cache/cache.go:137-159 | a caller waits for the key's flight, or leads one of its own |
| Flights.Cache.Give | cache/cache.go:187-211 | the leader's value, read or worked out, is the flight's |
| Flights.Cache.Land | cache/cache.go:161-166 | the flight is taken off, of all flights that one |
| Flights.Cache.Wake | cache/cache.go:147-152 | a caller that waited has the flight's value, or works on its own |
| Flights.OneAtWork | cache/cache.go:125-127 | two callers are at work on a key at once only when one waited for a flight that came to nothing it could use |
| Flights.OnceAtATime | cache/cache.go:125-127 | so the work runs once at a time while every flight comes to something |
| Flights.TwoAtWork | cache/cache.go:150-152 | a run in which two work a key out at once, after a flight that failed |
| Flights.BothAtWorkExactly | cache/cache.go:147-152 | from any reached state, two that waited are both at work once they are woken if and only if their flights came to nothing that either can use |
| Flights.BesideNewExactly | cache/cache.go:147-158 | and one that waited is, beside a caller that comes anew, if and only if its flight came to nothing that it can use |
| Flights.WaiterHasLeaders | cache/cache.go:125-127 | what a caller that waited has is what the flight's leader came back with |
| Flights.WaiterIsLetGo | cache/cache.go:160-166 | no caller waits for good: the leader can always go on to let it go, when its work fails or panics too |
| Throttles.MemoryThrottles.Hit | auth/throttle.go:163-177 | a try is counted in its key's window, which starts when the last is over |
| Throttles.AnswersAlike | auth/throttle.go:163-208 | each answer is that of counts never swept |
| Throttles.AnswersAreOwn | auth/throttle.go:163-193 | in any run, a key's answer is the count and the end of the window of its own tries since it was cleared last |
| Throttles.WindowLets | auth/throttle.go:78-92 | no window lets through more than the most |
| Throttles.SpanLets | auth/throttle.go:78-92 | no span as long as a window lets through more than twice the most |
| Throttles.KeyLets | auth/throttle.go:78-92 | so for each key, since it was cleared last, among all that is asked of the store |
| Throttles.StoreLets | auth/throttle.go:78-92 | counted by the swept store's own answers, in any span as long as a window, over any run |
| Throttles.Throttle.Try | auth/throttle.go:84-91 | a try waits only when it is one too many, and then until its window ends |
| Throttles.Throttle.Wait | auth/throttle.go:93-102 | says what a try would, without counting one |
| Broadcast.Hub.Subscribe | broadcast/broadcast.go:168-185 | a new stream, of what is delivered from now on |
| Broadcast.Hub.Drop | broadcast/broadcast.go:188-193 | a stream is closed once: closing one that is closed is not possible |
| Broadcast.Hub.Deliver | broadcast/broadcast.go:197-218 | each subscriber to the channel gets the event, unless it is full, which closes it: none is sent on closed |
| Broadcast.Hub.ListenStops | broadcast/broadcast.go:238-256 | when a Listen ends every stream is closed as it was, so that none outlives the Listen its events are of; but as Run returns none is |
| Broadcast.TakenIsPrefix | broadcast/broadcast.go:161-167 | in every state, what was taken is a prefix of what was delivered on its channels since, of one Listen |
| Histogram.InBucket | bench/load.go:294-311 | a value is in its bucket, which is no wider than a 64th of it |
| Histogram.BucketMonotone | bench/load.go:294-302 | longer durations are in no lower bucket |
| Histogram.SlotsReach | bench/load.go:288-292 | the buckets reach to 2^53 microseconds |
| Histogram.Counts.Record | bench/load.go:313-318 | counting one more |
| Histogram.Counts.Merge | bench/load.go:320-326 | merging is counting the durations of both |
| Histogram.SomeRanked | bench/load.go:330-344 | there is a duration of every rank up to how many were counted |
| Histogram.Counts.Percentile | bench/load.go:330-344 | within a 64th of the duration of that rank, below 2^53 microseconds |
| Histogram.CountsAddUp | bench/load.go:313-326 | the counts add up to how many were counted |

## Left out

- Everything that is I/O, HTTP, rendering, cryptography or a library's: requests, cookies as headers, sealing (a payload opens
  only as it was sealed), hashing (injective), random IDs and owners (distinct), SQL Stores, S3, mail, SSR, templates, the CLI.
- Goroutines below one Store call, one method under a mutex, or one message of a Go channel: those are the steps. The loops that
  wait between steps (`Queue.Run`, `idle`, `Lock.Wait`, `Hub.Run`'s waits) are not modelled.
- The width of integers and of times, but where the code meets it (cron steps, CBOR arguments, the histogram's buckets): times
  are integers of nanoseconds, and Go's zero time is 0 or none.
- QueueRuns.InvariantNext: starting a failed job over is a step only while no claim of it is unreported, as FailedStore's reset
  of the attempts would otherwise give a number twice.
- Carried values, observers, logs, OnFail hooks and timeouts of jobs; the random tenth of a backoff is a parameter.
- CronZone.NextIn: a zone is a list of changes, none nearer to the next than the clock goes back at either, and the search
  gives up after 64 of them, as the code does; the zone database is not part of this model.
- CronParse.ParseCron: the zone that an expression is in is given beside its text; digits and letters outside ASCII are not read, but for
  those that case makes the letters of a name.
- KeptSessions.KeptAsInTheCookie: one browser, whose requests come one after the other, and a Keeper that answers; the limit on a
  cookie's size and keys that are replaced are left out.
- FlashForms.FlashedOnceShownOnce: validation errors over a second redirect, and the redirect of a trailing slash, which carry
  flash otherwise; values are text, flags and maps of those.
- PropTree.Resolver.Level: values are JSON by now; a prop's value is data or holds props, and is no prop itself; paging metadata
  and what the DevTools are told are left out, and so is that props are worked out at once.
- PartialReloads.FilteredByPath: keys have no dots, as the protocol's paths need, and no level has a key twice.
- OnceRuns.RunShowsPages: keys have no commas, which the header that lists them could not say; the errors prop that the server
  adds is one of the page's own; props put back in the order of their keys by the code are put back in any order here.
- JSON numbers are their digits, and text is compared as it is: the raw bytes of a value are taken to be the value.
- JsonForms.Idempotent: how bools, numbers and times are parsed is a parameter, of which it is asked that no number is text, and
  that a time is written in a form that is read as it is. A type is what is behind its pointers, which lead somewhere.
- JsonFields.Candidates: a struct's fields are as reflection lists them, with the name of their json tag where it is a valid one.
- EmptyNils.EmptyAll: pointers that lead back to themselves, which the depth is for, are not values here; type graphs are those
  whose cycles pass through a struct, as the search of any other would not end.
- Flights.Cache.Give: what the store answers, and what the work comes to, are one parameter, a value or none.
- Throttles.StoreLets: a key that nothing clears, as Clear is what lets a login start again.
- Histogram.Counts.Percentile: the rank is worked out over reals, where the code rounds a float.
- Broadcast.Hub.ListenStops: a hub is Run once; one that is Run again after Run returned would go on with the streams it left open.
- Broadcast.Hub.Deliver: presence, the leases of its members, and the encoding of events are left out.
- Pagination windows, plural forms and number grouping: easier, or mostly tables.
