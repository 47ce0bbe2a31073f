# klauthed: a verified model of its protocols and transformers

klauthed is a Rust service toolkit. This project models the parts of it whose
correctness depends on long runs, concurrency or recursive structure, and proves
what they promise:

- the background **job queue** (`Jobs`, `JobQueue`, `JobWorker`), and the Redis
  queue as a refinement of the in-memory one (`RedisJobs`);
- **cron** schedules: the field parser, the Gregorian calendar and the
  next-occurrence search (`CronField`, `Calendar`, `CronSearch`, `Cron`, `CronText`);
- the transactional **outbox** and any number of concurrent relays (`Outbox`, `Relays`);
- **TTL locks** with fencing tokens in three backends (`Locks`, `Timestamps`, `RemoteLocks`);
- **rate limiters**: fixed window and token bucket, each with its Redis twin
  (`FixedWindow`, `TokenBucket`);
- **configuration**: deep merge, dotted keys and hot reload (`ConfigTree`, `ConfigKeys`, `Reload`);
- message **interpolation**, **saga** rollback and template **conditionals**
  (`Interpolate`, `Saga`, `Conditionals`).

`Ordering`, `Text` and `Numbers` hold shared vocabulary: sorted enumerations, byte
order, numerals, splitting and trimming, representable instants.

## How the model is built

State that the program updates in place is a class whose methods are proved
against functions of the old state; loops stay loops. The laws are then lemmas
about those functions, over whole runs. A run is a sequence of states tied by a
step predicate, so every statement of the form "at index `n`" holds for every
reachable state of every run.

The clock, minted identifiers and tokens, handler results, publisher results,
provider results and Redis evictions are parameters: the theorems hold for every
value of them, under the stated conditions (a clock that does not go back, fresh
identifiers). Times are whole milliseconds, except in cron (nanoseconds in,
minutes out) and the token bucket (exact reals).

Where a promise turned out not to hold on all inputs, the code is modelled as it
is and the exact condition is proved:

- The two job queues stay in step after a call if and only if the call `Agrees`
  (`RedisJobs.StepRefines`): a success report on a queued job leaves it in `due`,
  and a failure report on a queued job out of attempts does too. A claimed job read
  back from Redis equals the in-memory job if and only if its last queueing was not
  a retry, since the fail script leaves the stored `run_at`.
- A cron term marks exactly its progression if and only if its `u8` counter does
  not overflow (`lo + step <= 255`), except for the harmless day-of-week `7/249`;
  minutes `59-59/200` also mark 3.
- An accepted schedule recurs from every minute if and only if it admits a date
  other than 29 February: from the end of 2096 the five-year horizon holds no leap
  day because 2100 is not a leap year. `0 0 29 2 *` is accepted and stops there.
- Redis answers a lock request as memory does if and only if both accept the TTL or
  both refuse it. Redis wants a positive 64-bit number of milliseconds, memory an
  expiry no later than year 9999: a zero TTL is granted by memory only, one of
  10^15 ms by Redis only.
- Redis forgetting an idle token bucket is invisible in every run if and only if the
  window is a positive whole number of milliseconds; otherwise the expiry, rounded
  down, comes before the bucket is full.
- A fixed window admits at most `2 * max` requests in calls spanning at most a window
  if and only if the window is at least a millisecond. A shorter one truncates to
  zero and admits every request. In calls spanning less than a window the bound is
  `2 * max - 1`. Both bounds are attained.
- Deep merge of three trees is associative if and only if, wherever the middle one
  replaces an object by something else, the third covers what the first had.
- Looking up every key after dotted expansion gives its value back if and only if
  a key whose segments begin another's already holds the other's value; with `a`
  and `a.b` holding numbers, `a` is lost.
- Reading back a printed message template gives its segments if and only if
  placeholder names contain no `}` and do not start with `{`; a placeholder named
  `{x` reads back as an escaped brace.
- However the relays go on after an entry is enqueued, the delivered outbox ids stay
  a prefix of the id order if and only if the entry is newer than every id delivered
  and every undelivered id in a relay's batch.

Where code and documentation differ the code is followed. `locks/mongo.rs` (line
122) explains contention by a filter that matches nothing; with `upsert` that case
is an insert which collides with the live document, and the collision is what
reports contention. `cron.rs` (line 182) adds in `u8`: the model wraps, as a release
build does; a debug build would panic there.

## Model

| member | source | states |
|---|---|---|
| `Jobs.BackoffDoublesToCap` | klauthed-platform/src/jobs/queue.rs:78-85 | Retry delays start at one second, double with each attempt and stay at one hour from the 13th on. |
| `Jobs.ClaimOrder` | klauthed-platform/src/jobs/queue.rs:173-184 | The claimed ids are queued and due, distinct, and strictly ascending by (run time, id); the next row says that none is missing. |
| `Jobs.ClaimTakesEarliest` | klauthed-platform/src/jobs/queue.rs:173-184 | A due job is left out of a claim only if there is a limit, the claim is full, and every claimed job comes before it by (run time, id). |
| `Jobs.ClaimWithinLimit` | klauthed-platform/src/jobs/queue.rs:182-184 | A claim never exceeds its limit. |
| `Jobs.EmptyClaimIffNothingDue` | klauthed-platform/src/jobs/queue.rs:173-184 | A claim with room for a job comes back empty if and only if nothing is due. |
| `Jobs.AttemptsAreClaims` | klauthed-platform/src/jobs/queue.rs:169-246 | In every run a job's attempts equal its claims, never exceed the cap plus its stall recoveries, and a queued job has an attempt left under that bound. |
| `Jobs.NotQueuedUntilReleased` | klauthed-platform/src/jobs/queue.rs:186-246 | A claimed job stays out of the queue until a failure report or a recovery names it. |
| `Jobs.ClaimsAreSeparated` | klauthed-platform/src/jobs/queue.rs:186-246 | Between two claims of one job lies a failure report or a stall recovery of it. |
| `Jobs.SubmissionStored` | klauthed-platform/src/jobs/queue.rs:130-146 | A submitted job is queued for its run time with its kind, payload and creation time, no attempts and no error; no other job changes. |
| `Jobs.ClaimStored` | klauthed-platform/src/jobs/queue.rs:186-195 | A claimed job is running with one attempt more and all else as it was; other jobs are unchanged. |
| `Jobs.SuccessStored` | klauthed-platform/src/jobs/queue.rs:198-205 | A success report stores Succeeded with no last error and touches nothing else; an unknown id changes nothing. |
| `Jobs.FailureStored` | klauthed-platform/src/jobs/queue.rs:207-224 | A failure report stores its reason; the job is Failed when its attempts reached the cap, otherwise queued at the report time plus the backoff, or at the report time when that is not representable. |
| `Jobs.RecoveryStored` | klauthed-platform/src/jobs/queue.rs:234-244 | Exactly the running jobs whose run time is more than the threshold ago are queued for now, attempts and error unchanged. |
| `JobQueue.InMemoryJobQueue.WithMaxAttempts` | klauthed-platform/src/jobs/queue.rs:107-113 | A new queue is empty and its attempt cap is at least one. |
| `JobQueue.InMemoryJobQueue.Schedule` | klauthed-platform/src/jobs/queue.rs:130-146 | Adds one queued job with zero attempts and the queue's cap, leaving all others. |
| `JobQueue.InMemoryJobQueue.DequeueDue` | klauthed-platform/src/jobs/queue.rs:169-196 | Exactly the jobs of the claim order become running with one more attempt, and are returned in that order as they now stand. |
| `JobQueue.InMemoryJobQueue.StartAll` | klauthed-platform/src/jobs/queue.rs:186-195 | The claiming loop starts each listed job once and copies out its new state. |
| `JobQueue.InMemoryJobQueue.MarkSucceeded` | klauthed-platform/src/jobs/queue.rs:198-205 | Marks the job succeeded and clears its error, or reports it unknown and changes nothing. |
| `JobQueue.InMemoryJobQueue.MarkFailed` | klauthed-platform/src/jobs/queue.rs:207-224 | Records the reason; fails a job out of attempts, else queues it after the backoff (or now, past the last instant). |
| `JobQueue.InMemoryJobQueue.DequeueStalled` | klauthed-platform/src/jobs/queue.rs:226-246 | Exactly the stalled running jobs are queued for now, whatever their attempts, and each is returned once, in whatever order the map is visited. |
| `JobQueue.CopiesMeaning` | klauthed-platform/src/jobs/queue.rs:239-243 | Each recovered job is handed out as stored: queued for now with its attempts and error kept. |
| `JobWorker.RunOnce` | klauthed-platform/src/jobs/worker.rs:50-60 | A pass claims a batch, reports every claimed job's outcome, returns how many it claimed, and no report is refused; the next two rows say which outcome each job gets. |
| `JobWorker.ReportLoop` | klauthed-platform/src/jobs/worker.rs:53-58 | The loop leaves the store that reporting the claimed jobs one after the other gives. |
| `JobWorker.PassOutcomes` | klauthed-platform/src/jobs/worker.rs:53-58 | A claimed job handled successfully is Succeeded with no last error; one that failed carries its reason and is Failed exactly when its attempts reached the cap, otherwise queued at its report time plus the backoff; unclaimed jobs are unchanged. |
| `JobWorker.PassUsesAttempts` | klauthed-platform/src/jobs/worker.rs:50-60 | A pass leaves no job running and lowers the sum of remaining attempts by at least the number processed. |
| `JobWorker.DrainTerminates` | klauthed-platform/src/jobs/worker.rs:50-60 | However often and with whatever outcomes a sole worker runs, it processes at most the attempts there were at the start. |
| `JobWorker.WorkIsBounded` | klauthed-platform/src/jobs/worker.rs:50-60 | With submissions mixed in at any point, the jobs processed never exceed the attempts there were plus the cap for each job submitted. |
| `RedisJobs.UuidTextOrder` | klauthed-platform/src/jobs/redis.rs:33-53 | Redis breaks score ties by member text; on hyphenated ids that is the order of the ids. |
| `RedisJobs.UuidTextLayout` | klauthed-platform/src/jobs/redis.rs:156-158 | A member's text is the id's 32 hex digits in groups of 8, 4, 4, 4 and 12. |
| `RedisJobs.SameClaimOrder` | klauthed-platform/src/jobs/redis.rs:33-53 | In corresponding states the range query on `due` lists the in-memory claim order, for every time and limit. |
| `RedisJobs.SameStalled` | klauthed-platform/src/jobs/redis.rs:88-100 | In corresponding states the stalled members of `run` are exactly the stalled jobs. |
| `RedisJobs.StepRefines` | klauthed-platform/src/jobs/redis.rs:33-100 | From corresponding states, a call leads to corresponding states if and only if it agrees: the condition is on the in-memory state and the call alone. |
| `RedisJobs.RunRefines` | klauthed-platform/src/jobs/redis.rs:33-100 | Through every run of agreeing calls `due` and `run` hold exactly the queued and running ids, scored by the run time, with equal status, attempts and errors. |
| `RedisJobs.RunningReportsAgree` | klauthed-platform/src/jobs/redis.rs:57-83 | Fresh ids and reports on running jobs only are enough for every call to agree. |
| `RedisJobs.RunRepliesAgree` | klauthed-platform/src/jobs/redis.rs:33-100 | So in every such run both queues claim the same ids in the same order and recover the same set. |
| `RedisJobs.SucceededWhileQueuedIsClaimedAgain` | klauthed-platform/src/jobs/redis.rs:57-63 | A queued job reported as succeeded is handed out again by Redis and not by memory. |
| `RedisJobs.ClaimedJobReadsSameUnlessRetried` | klauthed-platform/src/jobs/redis.rs:216-255 | A claimed job decoded from its hash equals the in-memory job but for its run time, which is equal if and only if the job was not queued by a retry. |
| `RedisJobs.RetryReadsStaleRunAt` | klauthed-platform/src/jobs/redis.rs:79-80 | A concrete retried job reads run time 0 from Redis where memory says 1000. |
| `RedisJobs.RedisJobQueue.Insert` | klauthed-platform/src/jobs/redis.rs:160-200 | Writes the hash and the `due` score of a new job. |
| `RedisJobs.RedisJobQueue.RunClaim` | klauthed-platform/src/jobs/redis.rs:33-53 | The claim loop moves exactly the listed ids from `due` to `run` with their scores, marks them running and counts an attempt. |
| `RedisJobs.RedisJobQueue.RunSucceed` | klauthed-platform/src/jobs/redis.rs:57-63 | Marks a known job succeeded and removes it from `run` only. |
| `RedisJobs.RedisJobQueue.RunFail` | klauthed-platform/src/jobs/redis.rs:68-83 | Fails a known job or scores it into `due` after the backoff, leaving its stored `run_at`. |
| `RedisJobs.RedisJobQueue.RunRecover` | klauthed-platform/src/jobs/redis.rs:88-100 | The recovery loop moves exactly the members below the cutoff back to `due`, scored now. |
| `CronField.TestSetBit` | klauthed-platform/src/cron.rs:181 | Setting a bit of a mask adds that value and no other. |
| `CronField.ParseTerm` | klauthed-platform/src/cron.rs:153-176 | A term is accepted only with a range inside the field's, not reversed, and a step of 1 to 255. |
| `CronText.WrittenParses` | klauthed-platform/src/cron.rs:153-176 | Every written form, `*`, `n` or `lo-hi`, with or without `/step`, parses to its range and step over the field's bounds, or is refused for the reason stated: step zero, step or number too large, out of range, reversed. |
| `CronText.PlusAndZero` | klauthed-platform/src/cron.rs:155-157 | A plus sign or a leading zero changes no number. |
| `CronText.NumberTrimmed` | klauthed-platform/src/cron.rs:189-195 | Whitespace around a number is ignored; out of range and too large are told apart. |
| `CronText.SteppedStar` | klauthed-platform/src/cron.rs:153-183 | Minutes with a star and a step are exactly the multiples of the step, so a step of 15 gives 0, 15, 30 and 45. |
| `CronField.MarkTerm` | klauthed-platform/src/cron.rs:178-183 | The `u8` loop terminates and adds exactly the values its counter takes, modulo 7 for weekdays. |
| `CronField.MarksExactly` | klauthed-platform/src/cron.rs:178-183 | A term marks exactly { lo + k * step <= hi } if and only if `lo + step` fits a `u8`, or it is weekday 7 with step 249. |
| `CronField.SevenIsSunday` | klauthed-platform/src/cron.rs:146-180 | As weekdays 7 and 0 denote the same single day. |
| `CronText.OverflowingTermMarksThree` | klauthed-platform/src/cron.rs:178-183 | The accepted minutes term `59-59/200` marks 3, which it does not mean. |
| `CronField.ParseField` | klauthed-platform/src/cron.rs:148-187 | A field is refused with its first bad term's error, else its mask is the union of what its terms mark. |
| `CronText.ListParses` | klauthed-platform/src/cron.rs:152-184 | A comma list of written terms parses to what they stand for, in order. |
| `CronText.ListRefused` | klauthed-platform/src/cron.rs:152-176 | A comma list with a bad term is refused for its first one. |
| `CronText.FieldDenotes` | klauthed-platform/src/cron.rs:148-187 | The field parsed from a written list without overflow holds exactly lo, lo + step, ... up to hi for some listed term, modulo 7 for weekdays, and counts as a star exactly when it is a bare one. |
| `CronField.FieldIsUnionOfTerms` | klauthed-platform/src/cron.rs:148-187 | With no overflowing term the field is the union of its progressions, not empty and inside its range. |
| `CronField.StartIsMarked` | klauthed-platform/src/cron.rs:174-183 | Whatever its step a term marks its start, so no accepted field is empty. |
| `CronText.FieldRoundTrip` | klauthed-platform/src/cron.rs:152-195 | Every list of in-range terms is what its printed field parses to. |
| `CronText.SplitJoinedWords` | klauthed-platform/src/cron.rs:85 | Fields written with single spaces between them are split back unchanged. |
| `CronText.WordThenSpace` | klauthed-platform/src/cron.rs:85 | Any run of whitespace between fields only separates them. |
| `Calendar.CivilRoundTrip` | klauthed-platform/src/cron.rs:126-143 | The civil date of a date's own day number is that date. |
| `Calendar.NextCivil` | klauthed-platform/src/cron.rs:126-143 | Each day is followed by the next Gregorian date and the next weekday. |
| `Calendar.EpochDay` | klauthed-platform/src/cron.rs:126-143 | 1 January 1970 is the epoch day and a Thursday, which fixes the calendar. |
| `Calendar.CivilOrder` | klauthed-platform/src/cron.rs:126-143 | Dates are ordered as their days. |
| `Cron.ParseCron` | klauthed-platform/src/cron.rs:84-97 | Anything but five fields is refused, then the first bad field's error is returned; otherwise the schedule is accepted, each field being the parse of its text over its own range and non-empty there. |
| `CronText.FirstBadField` | klauthed-platform/src/cron.rs:89-96 | An expression is refused for its first bad field, left to right. |
| `CronText.ScheduleDenotes` | klauthed-platform/src/cron.rs:84-97 | A schedule parsed from five written lists holds in each field what was written there, over 0-59, 0-23, 1-31, 1-12 and weekdays 0-7. |
| `Cron.FiresOnDate` | klauthed-platform/src/cron.rs:126-143 | On a civil date at h:mi a schedule fires exactly when minute, hour and month are listed and the day is: by day of month, by weekday, by either when both are restricted, or always when both are stars. |
| `Cron.EitherDayField` | klauthed-platform/src/cron.rs:134-143 | With both day fields restricted a schedule fires exactly where one of the two obtained by starring the other field does. |
| `CronText.FirstOrMondayFires` | klauthed-platform/src/cron.rs:134-143 | `0 0 1 * 1`, searched from just before Thursday 1970-01-01, is found on that first of the month. |
| `Cron.NextAfter` | klauthed-platform/src/cron.rs:102-114 | Returns the least matching minute strictly after its argument, and none exactly when the horizon has no match. |
| `Cron.HorizonIsExact` | klauthed-platform/src/cron.rs:106-113 | The search looks exactly 2,635,200 minutes ahead: the leap day of 2104 is found from that long before and not from a minute earlier. |
| `CronSearch.OccurrencesAreAllMatches` | klauthed-platform/src/cron.rs:102-114 | Iterating the search visits every matching minute once, in increasing order, skipping none. |
| `Cron.RecursIffAdmitsYearlyDate` | klauthed-platform/src/cron.rs:102-143 | An accepted schedule has a next occurrence from every minute if and only if it admits a date other than 29 February. |
| `Cron.LeapDayOnlyStops` | klauthed-platform/src/cron.rs:99-114 | A schedule that admits only 29 February finds nothing within the horizon from the end of 2096. |
| `CronText.LeapDayScheduleStops` | klauthed-platform/src/cron.rs:84-114 | The expression `0 0 29 2 *` parses without error to an accepted schedule that admits no other date, and from the last minute of 2096 nothing is found. |
| `Cron.RecurringNeverEnds` | klauthed-platform/src/cron.rs:102-143 | A recurring schedule yields as many occurrences as it is asked for. |
| `Outbox.SortIsSortedPermutation` | klauthed-data/src/outbox/mod.rs:162-163 | Sorting unpublished entries keeps them all, with multiplicity, in id order. |
| `Outbox.SortIsStable` | klauthed-data/src/outbox/mod.rs:163 | Entries with one id keep their order. |
| `Outbox.FetchIsOldestFirst` | klauthed-data/src/outbox/mod.rs:158-166 | No unpublished entry left out of a fetch is older than one taken. |
| `Outbox.InMemoryOutbox.Enqueue` | klauthed-data/src/outbox/mod.rs:153-156 | Appends the entries. |
| `Outbox.InMemoryOutbox.FetchUnpublished` | klauthed-data/src/outbox/mod.rs:158-166 | Returns the first unpublished entries in id order, up to the limit, changing nothing. |
| `Outbox.InMemoryOutbox.MarkPublished` | klauthed-data/src/outbox/mod.rs:168-178 | Stamps exactly the unpublished entries with a listed id. |
| `Outbox.MarkStored` | klauthed-data/src/outbox/mod.rs:168-178 | A marking stores its time on the listed unpublished entries; published and unlisted ones are unchanged. |
| `Outbox.Drain` | klauthed-data/src/outbox/relay.rs:68-87 | A pass publishes in order up to the first refusal and marks exactly what was published. |
| `Outbox.PassShipsBatch` | klauthed-data/src/outbox/relay.rs:68-87 | A pass with no refusal lowers the backlog by the batch size, or to zero. |
| `Outbox.UnrefusedPassIsHealthy` | klauthed-data/src/outbox/relay.rs:68-87 | A drain in which every publish is accepted marks exactly the fetched batch, the healthy pass of the rows around this one. |
| `Outbox.EmptiedInCeilPasses` | klauthed-data/src/outbox/relay.rs:68-87 | With a healthy publisher n entries are gone after p passes if and only if p is at least ceil(n / batch). |
| `Relays.StepKeepsInv` | klauthed-data/src/outbox/relay.rs:68-87 | Every step of every relay, failed publishes and markings included, keeps the delivery invariant. |
| `Relays.NoSkipsAtLeastOnce` | klauthed-data/src/outbox/relay.rs:68-87 | With any number of relays and any failures, each id is delivered only after every older one, the delivered ids are a prefix of the id order, and a marked entry was delivered. |
| `Relays.MarkingTimeKept` | klauthed-data/src/outbox/mod.rs:168-178 | In every run an entry marked by a relay carries the time of that marking ever after. |
| `Relays.IncreasingIsOrderly` | klauthed-data/src/outbox/mod.rs:153-163 | Enqueueing in increasing id order meets the condition those runs put on enqueues. |
| `Relays.EnqueueSafeIffNewest` | klauthed-data/src/outbox/mod.rs:153-163 | After an enqueue every continuation of the relays keeps the delivered ids a prefix if and only if the entry is newer than every delivered id and every undelivered id in a relay's batch. |
| `Relays.BatchedIdOvertakes` | klauthed-data/src/outbox/relay.rs:73-81 | With entry 5 fetched and not yet published, enqueueing 3 keeps the prefix for the moment and the next publish breaks it. |
| `Relays.PassIsDrain` | klauthed-data/src/outbox/relay.rs:68-87 | A relay's steps taken without interruption are one drain: they deliver the batch up to the first refusal, mark exactly that and leave the relay idle. |
| `Locks.MutualExclusion` | klauthed-data/src/locks/mod.rs:145-255 | In every run an unreleased, unexpired guard is the recorded owner of its key, so no two hold one key. |
| `Locks.RunKeepsInv` | klauthed-data/src/locks/mod.rs:145-255 | Acquire, release, drop and the passing of time keep every holding guard its key's owner and every entry backed by its guard. |
| `Locks.StaleReleaseIsHarmless` | klauthed-data/src/locks/mod.rs:169-177 | Releasing or dropping a guard never removes another token's hold. |
| `Locks.GrantedIffNobodyHolds` | klauthed-data/src/locks/mod.rs:236-255 | With releasing drops an acquire with a valid TTL is granted if and only if no guard holds the key. |
| `Locks.OutcomeMeaning` | klauthed-data/src/locks/mod.rs:236-248 | A TTL is refused exactly when its expiry is not representable, and contention is reported exactly for a valid one at a live holder. |
| `Locks.LockLastsForTtl` | klauthed-data/src/locks/mod.rs:236-252 | A granted lock bars later acquires of its key exactly until its TTL has passed, and no other key. |
| `Locks.GuardLastsForTtl` | klauthed-data/src/locks/mod.rs:145-255 | A granted guard holds its key for exactly its TTL unless released before, and releasing it frees the key. |
| `Locks.DropMeaning` | klauthed-data/src/locks/mod.rs:180-209 | Dropping an in-memory guard releases it; dropping a remote one leaves the lock to its TTL. |
| `Locks.LockTable.TryAcquire` | klauthed-data/src/locks/mod.rs:236-255 | Refuses an overflowing TTL, reports contention with a live holder, else records the new owner and hands out its guard. |
| `Locks.LockTable.ReleaseInMemory` | klauthed-data/src/locks/mod.rs:169-177 | Removes the key only if the token still owns it. |
| `Locks.LockGuard.Release` | klauthed-data/src/locks/mod.rs:145-188 | The first release or drop frees only the guard's own hold; later ones do nothing. |
| `Timestamps.TextOrderIsChronological` | klauthed-core/src/time/timestamp.rs:99-106 | Comparing the fixed-width texts compares the instants, as section 5.1 of RFC 3339 has it. |
| `Timestamps.TextLayout` | klauthed-core/src/time/timestamp.rs:99-106 | The text is the civil date and the time of day to the millisecond, zero-padded, with the separators of RFC 3339 and a final Z. |
| `Timestamps.RepresentableYears` | klauthed-core/src/time/timestamp.rs:123-125 | The representable instants are those of the years -9999 to 9999; the ones with four-digit years start at year 0. |
| `RemoteLocks.Rfc3339IsChronological` | klauthed-data/src/locks/mongo.rs:87-96 | So the expiry texts MongoDB compares are in time order, which is all the next rows need of them. |
| `RemoteLocks.RedisOutcomeAgrees` | klauthed-data/src/locks/redis.rs:73-100 | With the same live locks Redis answers an acquire as memory does if and only if the TTL is a positive 64-bit number of milliseconds exactly when its expiry is representable. |
| `RemoteLocks.TtlsAnsweredDifferently` | klauthed-data/src/locks/redis.rs:73-79 | Memory grants a zero TTL that Redis refuses, and refuses one of 10^15 ms that Redis grants. |
| `RemoteLocks.BackendsInStep` | klauthed-data/src/locks/mongo.rs:65-134 | Before every call of every run the three backends hold the same locks, whenever Redis evicts expired keys. |
| `RemoteLocks.BackendsAnswerAlike` | klauthed-data/src/locks/mongo.rs:81-134 | So they answer every acquire alike. |
| `RemoteLocks.RemoteMutualExclusion` | klauthed-data/src/locks/mod.rs:145-209 | At every moment of every run no two Redis or MongoDB guards that are neither released, dropped nor expired hold one key, and the one that does is the owner stored in both. |
| `RemoteLocks.MongoOutcomeAgrees` | klauthed-data/src/locks/mongo.rs:92-133 | The conditional upsert with text expiries decides as the in-memory table does. |
| `RemoteLocks.RedisLockManager.TryAcquire` | klauthed-data/src/locks/redis.rs:73-100 | Refuses a TTL that is not a positive 64-bit number of milliseconds; sets the key with its expiry only if no live key exists. |
| `RemoteLocks.RedisLockManager.ReleaseToken` | klauthed-data/src/locks/redis.rs:30-68 | Deletes the key only if it is live and holds the token, and says whether it did. |
| `RemoteLocks.MongoLockManager.TryAcquire` | klauthed-data/src/locks/mongo.rs:81-134 | Refuses a TTL with no representable expiry; replaces an expired or absent document with the new token and expiry text, else reports contention. |
| `RemoteLocks.MongoLockManager.ReleaseToken` | klauthed-data/src/locks/mongo.rs:65-76 | Deletes the document only if it holds the token, and says whether it did. |
| `FixedWindow.RedisAnswersAlike` | klauthed-data/src/rate_limit/redis.rs:16-78 | In every run the counter, which also counts refusals, gives the in-memory verdicts, remaining counts and retry times. |
| `FixedWindow.BurstAnswers` | klauthed-data/src/rate_limit/memory.rs:75-97 | Of calls at one instant on a new key the first max(limit, 1) are Allowed, counting down to zero remaining, and the others are told to wait the whole window. |
| `FixedWindow.AnswerMeaning` | klauthed-data/src/rate_limit/memory.rs:88-97 | A call is told Allowed exactly when it counts as admitted, and the remaining count is what its window has left. |
| `FixedWindow.AnnouncedWaitIsExact` | klauthed-data/src/rate_limit/memory.rs:83-93 | After a refusal, with no call since past the announced wait, a call is allowed exactly when that wait is over. |
| `FixedWindow.AtMostTwiceLessOne` | klauthed-data/src/rate_limit/memory.rs:69-98 | Calls spanning less than a window admit at most 2 * max - 1 requests. |
| `FixedWindow.TwiceBoundIffOneMilli` | klauthed-data/src/rate_limit/memory.rs:75-98 | In every run calls spanning at most a window, ends included, admit at most 2 * max, if and only if the window is at least a millisecond. |
| `FixedWindow.ZeroWindowAdmitsAll` | klauthed-data/src/rate_limit/memory.rs:75-86 | A window truncated to zero milliseconds admits every request of every run. |
| `FixedWindow.HalfMilliWindowAdmitsThree` | klauthed-data/src/rate_limit/memory.rs:75-86 | With a window of 500 microseconds and a cap of one, three calls at one instant are admitted. |
| `FixedWindow.BoundIsAttained` | klauthed-data/src/rate_limit/memory.rs:69-98 | For every cap and window of at least two milliseconds there is a run with calls within a millisecond of which 2 * max - 1 are admitted. |
| `FixedWindow.TwiceIsAttained` | klauthed-data/src/rate_limit/memory.rs:69-98 | For every cap and window there is a run with calls exactly a window apart of which 2 * max are admitted. |
| `FixedWindow.InMemoryRateLimiter.Check` | klauthed-data/src/rate_limit/memory.rs:69-98 | Restarts an elapsed window, then counts and allows, or reports the time left and leaves the count. |
| `FixedWindow.RedisRateLimiter.Check` | klauthed-data/src/rate_limit/redis.rs:16-78 | Counts every request in a key that expires with its window and derives verdict, remaining count and retry time. |
| `TokenBucket.TokensConserved` | klauthed-data/src/rate_limit/memory.rs:150-179 | Over every span tokens left plus requests admitted are at most a full bucket plus the refill. |
| `TokenBucket.AdmissionsBounded` | klauthed-data/src/rate_limit/memory.rs:150-179 | Any span of length T admits at most capacity + T * rate requests. |
| `TokenBucket.AllowedBounded` | klauthed-data/src/rate_limit/memory.rs:156-172 | Calls spanning T are answered Allowed at most max(limit, 1) * (1 + T / window) times, for every positive window. |
| `TokenBucket.BurstAnswers` | klauthed-data/src/rate_limit/memory.rs:156-178 | Of calls at one instant on a new key the first max(limit, 1) are Allowed, counting down to zero remaining, and the next are Limited until a token is refilled. |
| `TokenBucket.ScriptBurstAnswers` | klauthed-data/src/rate_limit/redis.rs:87-170 | The script answers such calls the same way, its wait in whole milliseconds, when the window is at least a millisecond. |
| `TokenBucket.DecideMeaning` | klauthed-data/src/rate_limit/memory.rs:170-178 | Allowed means a token was there, with the whole tokens left as the count; Limited announces the time to the next token. |
| `TokenBucket.RetryTimeIsExact` | klauthed-data/src/rate_limit/memory.rs:170-178 | After a refusal, with only refused calls in between, a call is admitted if and only if it comes at or after the announced retry time. |
| `TokenBucket.AnnouncedWaitIsExact` | klauthed-data/src/rate_limit/memory.rs:150-178 | After a Limited answer, with no call since past the announced wait, a call is Allowed exactly when that wait is over. |
| `TokenBucket.RedisRetryTime` | klauthed-data/src/rate_limit/redis.rs:87-110 | In every run of the script, after a refusal and with only refusals since, a call is admitted if and only if the wait is over or the key has expired. |
| `TokenBucket.RoundedRetryAdmits` | klauthed-data/src/rate_limit/redis.rs:87-110 | In every run of the script the announced wait in whole milliseconds suffices, and a millisecond less does not while the key lives. |
| `TokenBucket.AnnouncedScriptWait` | klauthed-data/src/rate_limit/redis.rs:87-170 | The same for the script's answers: the announced wait suffices, and a millisecond less does not while the key lives. |
| `TokenBucket.BackwardClockAddsNothing` | klauthed-data/src/rate_limit/memory.rs:166-167 | A clock that went back refills nothing. |
| `TokenBucket.ExpiryUnseenIffWholeMillis` | klauthed-data/src/rate_limit/redis.rs:87-170 | Every call of every run is answered as if the bucket were kept for ever if and only if the window is a positive whole number of milliseconds. |
| `TokenBucket.EarlyExpiryShows` | klauthed-data/src/rate_limit/redis.rs:147-150 | When the expiry is shorter than the refill window, a run is given whose last call the script allows from a full bucket and memory does not. |
| `TokenBucket.InMemoryTokenBucket.Check` | klauthed-data/src/rate_limit/memory.rs:150-179 | Refills for the time elapsed up to capacity, then spends a token or announces the wait, touching only the key's bucket. |
| `TokenBucket.RedisTokenBucket.Check` | klauthed-data/src/rate_limit/redis.rs:141-170 | The same on the bucket hash, read as full when expired, with the wait rounded up and the expiry re-armed. |
| `TokenBucket.RedisTokenBucket.RunScript` | klauthed-data/src/rate_limit/redis.rs:87-110 | The script on one key computes that decision and the stored bucket. |
| `ConfigTree.MergeValue` | klauthed-core/src/config/map.rs:154-168 | The recursive in-place merge computes the deep merge, in whatever order keys are visited. |
| `ConfigTree.MergeFields` | klauthed-core/src/config/map.rs:156-165 | The loop over overlay keys merges shared keys and inserts the rest. |
| `ConfigTree.EmptyIsIdentity` | klauthed-core/src/config/map.rs:86-99 | An empty layer changes nothing, above or below. |
| `ConfigTree.MergeIsIdempotent` | klauthed-core/src/config/map.rs:154-168 | Applying a layer twice is applying it once. |
| `ConfigTree.SelfMerge` | klauthed-core/src/config/map.rs:154-168 | Merging a tree over itself gives the tree. |
| `ConfigTree.OverlayWins` | klauthed-core/src/config/map.rs:154-168 | Wherever the overlay holds something other than an object, the merge holds that. |
| `ConfigTree.BaseShowsThrough` | klauthed-core/src/config/map.rs:154-168 | Where the overlay says nothing, the merge holds what the base did. |
| `ConfigTree.CoversIffAbsorbs` | klauthed-core/src/config/map.rs:154-168 | Merging over a layer leaves the overlay unchanged if and only if the overlay covers every key of that layer. |
| `ConfigTree.AssociativeIffRevivalsCovered` | klauthed-core/src/config/map.rs:154-168 | Three trees of any depth may be grouped either way if and only if each object revived over a non-object covers the object first there. |
| `ConfigTree.RevivalBreaksAssociativity` | klauthed-core/src/config/map.rs:154-168 | An object, a scalar and another object: the first object's key survives under one grouping only. |
| `ConfigTree.NoRevivalIsCovered` | klauthed-core/src/config/map.rs:154-168 | If no path holds an object, then a non-object, then an object in the three layers, the exact condition for associativity holds. |
| `ConfigTree.ResolveProviders` | klauthed-core/src/config/builder.rs:141-152 | Resolution fails exactly when some provider fails, else yields the providers' layers merged in order. |
| `ConfigTree.LastLayerWins` | klauthed-core/src/config/builder.rs:141-152 | A value a provider holds at a path, later providers being silent there, is what resolution holds. |
| `ConfigTree.GroupingIsIrrelevant` | klauthed-core/src/config/builder.rs:141-152 | Without revivals among the layers, every way of grouping them resolves to the same tree. |
| `ConfigKeys.InsertAt` | klauthed-core/src/config/map.rs:131-145 | The recursive insertion walks the dotted path, replacing non-objects on the way and merging at its end. |
| `ConfigKeys.InsertIsMerge` | klauthed-core/src/config/map.rs:131-145 | For every tree, path and value, dotted insertion equals deep merge of the single-path tree. |
| `ConfigKeys.ConfigMap.MergeWith` | klauthed-core/src/config/map.rs:90-99 | Deep-merges another map on top. |
| `ConfigKeys.ConfigMap.ExpandDotted` | klauthed-core/src/config/map.rs:71-84 | Expansion is the fold, in byte order of the keys, of merging single-path trees. |
| `ConfigKeys.ConfigMap.InsertKey` | klauthed-core/src/config/map.rs:74-81 | One turn of the expansion loop is a dotted insertion, and so a merge, at the root. |
| `ConfigKeys.ExpansionFixesUndotted` | klauthed-core/src/config/map.rs:66-84 | Expansion leaves no dotted top-level key, and leaves a map alone if and only if it had none. |
| `ConfigKeys.ExpansionIsIdempotent` | klauthed-core/src/config/map.rs:71-84 | Expanding twice is expanding once. |
| `ConfigKeys.GetRawWalks` | klauthed-core/src/config/config.rs:124-173 | Lookup answers the exact key if the top level has it, and otherwise follows the key's segments through nested objects. |
| `ConfigKeys.SegmentsJoin` | klauthed-core/src/config/config.rs:128-172 | A key's segments contain no dot and join back to the key. |
| `ConfigKeys.LookupUndoesExpansion` | klauthed-core/src/config/config.rs:124-173 | After expansion every original key, empty segments included, looks up to its value if and only if each key above another already holds the other's value. |
| `ConfigKeys.PrefixFreeKeysAreFound` | klauthed-core/src/config/map.rs:71-84 | So when no key's segments begin another's, every key is found again. |
| `ConfigKeys.ShadowedKeyIsLost` | klauthed-core/src/config/map.rs:71-84 | With numbers under `a` and `a.b`, not every key looks up to its value after expansion. |
| `Reload.RunKeepsConsistent` | klauthed-core/src/config/reload.rs:143-211 | In every interleaving a pending signal can still be received, subscribers saw the current tree last, and consecutive published trees differ. |
| `Reload.NoRefreshIsLost` | klauthed-core/src/config/reload.rs:143-192 | Each refresh is still in the slot, received with its resolve next, or followed by a resolve begun after it. |
| `Reload.RefreshIsServedPromptly` | klauthed-core/src/config/reload.rs:152-170 | Whatever else happens, a resolve begins within three task steps after a refresh. |
| `Reload.TickIsServed` | klauthed-core/src/config/reload.rs:152-170 | After a tick the task's next step begins a resolve. |
| `Reload.ResolveNeedsCause` | klauthed-core/src/config/reload.rs:152-170 | A resolve begins only after a tick or a received signal, which empties the slot. |
| `Reload.ClosedOnce` | klauthed-core/src/config/reload.rs:155-161 | A closed channel is noticed at most once and not listened to again. |
| `Reload.RefreshPublishesSources` | klauthed-core/src/config/reload.rs:152-211 | If the sources then stay put, a successful resolve begun after that moment makes the current tree equal to them. |
| `Reload.ReloadTask.Refresh` | klauthed-core/src/config/reload.rs:190-192 | Leaves a signal in the one-slot channel, merging with one already there: the machine's refresh step. |
| `Reload.ReloadTask.OnTick` | klauthed-core/src/config/reload.rs:149-154 | The first tick is skipped, a later one leads to a resolve. |
| `Reload.ReloadTask.OnSignal` | klauthed-core/src/config/reload.rs:155-161 | Takes the signal and leads to a resolve, or on a closed empty channel stops listening. |
| `Reload.ReloadTask.FinishResolve` | klauthed-core/src/config/reload.rs:163-168 | A successful resolve swaps its tree in if changed, a failed one keeps the current tree. |
| `Reload.ReloadTask.SwapIfChanged` | klauthed-core/src/config/reload.rs:203-211 | Makes the new tree current and publishes it only if it differs. |
| `Interpolate.Substitute` | klauthed-i18n/src/format.rs:49-92 | The scanner outputs the rendering of the template's tokens; substituted values are never rescanned. |
| `Interpolate.ReadName` | klauthed-i18n/src/format.rs:66-75 | The inner loop reads up to the first closing brace, or to the end of an unterminated placeholder. |
| `Interpolate.PrintRoundTrip` | klauthed-i18n/src/format.rs:44-92 | Reading a printed template gives its tokens back if and only if names contain no `}` and do not start with `{`. |
| `Interpolate.UnprintableName` | klauthed-i18n/src/format.rs:55-58 | A placeholder named `{x` prints as an escaped brace and is shown with one brace less. |
| `Interpolate.SegmentsRoundTrip` | klauthed-i18n/src/format.rs:44-92 | Interpolating a printed list of literals and placeholders yields the literals, the values of known arguments and unknown placeholders as written, concatenated. |
| `Interpolate.PlaceholderFilled` | klauthed-i18n/src/format.rs:61-86 | Between two texts with doubled braces, a placeholder becomes the value of the argument with its trimmed name, or stays as written when there is none. |
| `Interpolate.GreetingFilled` | klauthed-i18n/src/format.rs:74-75 | `Hello {name}` with name Ann gives `Hello Ann`. |
| `Interpolate.UnterminatedKept` | klauthed-i18n/src/format.rs:82-86 | A placeholder that is never closed is copied as it stands. |
| `Interpolate.LoneCloserKept` | klauthed-i18n/src/format.rs:59-88 | A single closing brace stands for itself. |
| `Interpolate.PrintedFormIsEquivalent` | klauthed-i18n/src/format.rs:49-92 | Every template, malformed ones included, has a printed form with the same message for all arguments. |
| `Saga.Execute` | klauthed-data/src/saga/mod.rs:97-111 | Either every action ran and succeeded in order, or the trace is the actions up to the first failure and then the compensations of exactly the completed steps in reverse, with that step's index and error. |
| `Saga.Unwind` | klauthed-data/src/saga/mod.rs:103-105 | The unwinding loop compensates the completed steps, last first. |
| `Saga.AbortedSagaRestores` | klauthed-data/src/saga/mod.rs:91-111 | If compensations undo their actions and the failed action had no effect, an aborted saga ends in its initial world. |
| `Saga.FirstFailureIsUnique` | klauthed-data/src/saga/mod.rs:97-111 | The reported step and error are determined by the steps and the start. |
| `Conditionals.ApplyConditionals` | klauthed-cli/src/scaffold.rs:154-175 | The stack machine outputs, newline-terminated, the lines kept under the open blocks' conditions. |
| `Conditionals.ReadLine` | klauthed-cli/src/scaffold.rs:160-172 | A marker line only moves the stack; another line is copied if all open conditions hold. |
| `Conditionals.MarkerMeaning` | klauthed-cli/src/scaffold.rs:161-168 | A line opens a block under a condition exactly when, trimmed, it is the IF marker with that condition, and closes one exactly when it is an END marker. |
| `Conditionals.MarkerWritten` | klauthed-cli/src/scaffold.rs:160-168 | Markers may be indented and followed by whitespace. |
| `Conditionals.ConditionMeaning` | klauthed-cli/src/scaffold.rs:155-166 | A condition `name` holds exactly when the first entry for that flag is true, and `!name` exactly when it is not. |
| `Conditionals.BlockKeptByFlag` | klauthed-cli/src/scaffold.rs:151-172 | A block under `name` is kept exactly when its flag is on, one under `!name` exactly when it is off. |
| `Conditionals.LinesRoundTrip` | klauthed-cli/src/scaffold.rs:159-171 | Lines without line endings of their own are read back as they were written. |
| `Conditionals.LineEndings` | klauthed-cli/src/scaffold.rs:159 | A carriage return before a newline belongs to the line ending, and a last line needs no newline. |
| `Conditionals.NestedTemplateEvaluates` | klauthed-cli/src/scaffold.rs:151-175 | On a tree of nested blocks the machine computes the structural evaluation. |
| `Conditionals.WellNestedTemplate` | klauthed-cli/src/scaffold.rs:151-175 | Every template whose markers balance is such a tree and evaluates so. |
| `Conditionals.KeptIsSelected` | klauthed-cli/src/scaffold.rs:154-175 | For every template, balanced or not, the output is the plain lines whose every enclosing block holds, in order. |
| `Conditionals.NoMarkerIsEmitted` | klauthed-cli/src/scaffold.rs:151-175 | No line of any output is a marker. |

## Left out

- Time zones and daylight saving in cron: they rest on the zone database; schedules here are in UTC.
- Cron searches that run past the last representable date: the program panics there, the model's calendar has no end.
- `CronError` messages: errors are distinguished by kind, not by text.
- Sub-millisecond instants: job, lock and window times are whole milliseconds, so truncation of finer instants by the Redis and MongoDB backends is not modelled.
- Integer widths of attempt, request and resolve counters, and the `i64` clamping of windows and limits: counters are unbounded.
- `f64` rounding and Lua number formatting in the token bucket and scripts: arithmetic is exact.
- Redis's expiry cycle: a key reads as absent from the instant it expires; its removal may come at any later time.
- Text encoding of Redis job hashes and their decoding errors: hashes are typed records.
- Redis's own limit on expiries of 2^63 ms and beyond: the server refuses a few TTLs that fit the client's 64-bit conversion.
- RemoteLocks.BackendsInStep: covers instants in years 0 to 9999, the ones the fixed-width text can express; outside them the text order is not chronological.
- RemoteLocks.MongoLockManager.TryAcquire: outside the years 0 to 9999, where the program writes signed or longer years, the spelling is left empty.
- MongoDB write races other than a collision with a live document: each call is atomic.
- JobWorker.RunOnce: requires jobs stored under their own ids, which every queue operation maintains, and a queue nobody else changes during the pass.
- Reload.RefreshPublishesSources: the sources are one tree; which provider changed, and how it loads, is not modelled.
- Concurrent `reload_now` calls: the background task is the only publisher.
- Aborting the reload task when its handle is dropped: runs go on.
- In-place aliasing of nested configuration nodes: nested values are replaced, not shared; the map itself is a mutable object.
- Saga actions that interleave with other writers, and compensations that fail: compensations return nothing in the program.
- The SQL job queue, SQL and MongoDB outboxes, migrations and transactions: their guarantees come from the database.
- The Redis idempotency store: `begin` may answer "new" twice when a key expires between two commands.
- Typed configuration access, JSON parsing, profile policy, template rendering by `replace`, file writing: plumbing or one-branch facts.
- Web, identity, messaging, storage, observability, discovery and macro crates: they would only add easy members or wrap libraries.
- Mutex poisoning, task scheduling and hash-map iteration order: results are order-independent where the code does not sort.
