# A verified model of an SMTP submission proxy

The system accepts mail from devices over SMTP, checks who may send as which mailbox, queues each message in a
database shared by several replicas, and delivers it upstream under per-mailbox limits. This project models the
parts whose promises cannot be read off any single function, and proves those promises for every input, every
run or every reachable state. `dafny verify dfyconfig.toml` checks everything.

**The leased delivery queue.** `Messages` gives every SQL statement as a function from table to table;
`MessageStore.MessageRepo` runs them in place. `Worker` and `Dispatch` are a replica: what it decides, and the
slots it hands out. `Protocol` interleaves the statements of any number of replicas, operators and housekeeping
arbitrarily, a claim being two steps (its UPDATE and its read-back), and every instant a step carries being a
possibly stale reading of one clock. `Moves` reduces every step to one move of one row. `RowLaws` and `History`
hold of every run, the latter saying what the columns of a row tell about it; `Fencing` and `Budget` of runs in which no delivery outruns its lease and no worker is granted the same
lease end twice; `Necessity` gives a run for each hypothesis that shows it cannot be dropped, and says from which
states a second delivery follows. `Backoff` is the retry schedule.

**The limiter.** `TokenBucket` proves the bucket equal to counting admissions in windows; `Limiter` puts the
semaphore in front of it, with a generation for every budget a mailbox has had; `LimiterLaws` is about its whole
runs, `MailboxLimits` about a mailbox over all its generations.

**Header rewriting.** `HeaderText` (lines and separators), `Rewriting` (the line loop refines an edit on logical
fields), `HeaderLaws` (body, separator, no extra and no lost line), `HeaderFields` (the rewritten header read back
by name), `HeaderBytes` (what all of this means on bytes), `Stamping` (what the sender policy's edits make of a message) and `Senders` (who is judged and who a
message says it is from). Field-name canonicalization and
white-space trimming are arbitrary functions with the few facts named in `Sane`, `KeyLike` and `KnowsNames`, which `Stamping.PlainWillDo` shows can be met; the order in which
missing fields are appended is arbitrary.

**Smaller machines.** `Session`, `Guesses`, `Policy` and `SaslLogin` (an SMTP connection and its sender policy),
`Bootstrap`, `Reconcile`, `References`, `Grants`, `Completion` and `Applier` (declarative configuration), `Expand` and
`ExpandText` (the config expander, as a lexer and as laws on text),
`Diagnostics` (test sends) and `Connections` (the connection caps).

Where the code and what is said about it differ, the model follows the code:

- A lease longer than the upstream timeout (`internal/config/validate.go:268`) does not by itself prevent a second
  delivery: the wait for the limiter counts against the lease too. The hypothesis is on the whole interval from
  claim to record; `Necessity.ClaimableOverlaps` shows what follows otherwise, `Necessity.PunctualityIsNeeded` a run.
- The read-back of a claim identifies rows by owner and lease end, so two claims of one worker with the same lease
  end would mix; `Necessity.RepeatedLeaseEndOverlaps`, and `Necessity.PacingIsNeeded` gives a run.
- `NextAttemptAfter` may schedule past the maximum age that binds `NextAttempt`;
  `Backoff.RequestedDelayPassesDeadline` says exactly when, `Backoff.DeadlinePassed` gives an input.
- A CRLF separator is preferred over an earlier LF blank line, and the lines in between are dropped;
  `HeaderLaws.NoLineLostExactly` says exactly when, `HeaderLaws.EarlierBlankLineLosesField` gives a message.
- Fields that no edit mentions keep their bytes up to the line ending, which becomes CRLF.
- A rewritten message with no header line left would be parsed with another boundary; `HeaderLaws.BodyIsKept`
  is an equivalence, `HeaderFields.EmptiedHeaderMovesBoundary` gives the messages, and every message the server
  stamps has a line (`HeaderLaws.StampedBodyIsKept`).
- A bootstrap default is resolved only among the addresses the run knows when it reaches the account: a default
  that only the database has is dropped, and the account may be left with nothing to send as, depending on the
  order of accounts. `Grants.DefaultGrantedExactly` and `Grants.GrantEmptyExactly` are equivalences,
  `Grants.OrderDecidesGrant` gives the files.
- An upgrade to TLS starts a new session whose count of failed logins is zero again, so a connection may fail up
  to twice the limit less one; `Guesses.GuessesWithinLimitExactly` says exactly when it cannot exceed the limit.
- The comment at `internal/queue/ratelimit.go:100-102` calls it harmless that deliveries keep their slot on the old
  semaphore after a budget change. A mailbox may then exceed both of Exchange's limits, as the new limiter starts
  with an empty semaphore and a full bucket; `MailboxLimits.ConcurrencyKeptExactly` and
  `MailboxLimits.RateKeptExactly` say exactly when, `MailboxLimits.SixAtOnce` and
  `MailboxLimits.FiftyNineAtOneInstant` give runs.
- Fields are read through Go's `net/textproto`, which keeps a space before the colon as part of the name, and
  rewritten by a loop that trims it. So the policy judges the first From field the library reads, while an
  accepted message keeps them all. `Senders.EveryFromEntitledExactly` says exactly when all of them are ones the
  sender is entitled to; `Senders.SecondFromUnjudged` and `Senders.SpacedFromUnjudged` give messages. A Reply-To
  written with such a space is overwritten (`Stamping.RewrittenSender`, `Stamping.SpacedReplyToIsAdded`).
- A test send whose audit entry or commit fails answers with an identifier, marked new, together with the error
  (`Diagnostics.AnswerMeans`); nothing was created.

## Model

| member | source | states |
|---|---|---|
| `Backoff.CutBounds` | internal/queue/backoff.go:62-86 | the jitter taken off a positive delay is less than the delay and at most its share |
| `Backoff.DelayBounds` | internal/queue/backoff.go:62-104 | jitter only shortens a delay, never to nothing, never by more than the clamped share |
| `Backoff.NextAttemptBounds` | internal/queue/backoff.go:44-59 | a retry lands strictly after now, at most the scheduled delay later and never past the maximum age; giving up means attempts or time ran out |
| `Backoff.NextAttemptExactly` | internal/queue/backoff.go:34-104 | for every configuration, with delays and defaults written out: the n-th attempt waits the n-th delay and later ones the last; the whole nanoseconds of delay times clamped jitter times draw are taken off; and it gives up exactly when the attempts are used up or the result lies past the maximum age |
| `Backoff.NextAttemptAfterIsLatest` | internal/queue/backoff.go:109-120 | the later of the schedule and the upstream's request, and a retry exactly when the schedule allows one |
| `Backoff.RequestedDelayPassesDeadline` | internal/queue/backoff.go:109-120 | a retry passes the maximum age if and only if the upstream asked for a delay reaching past it |
| `Backoff.DeadlinePassed` | internal/queue/backoff.go:109-120 | an input for which the schedule keeps within the maximum age and the retry does not |
| `MessageStore.OrderAndLimit` | internal/store/messages.go:166-167 | the earliest-due rows, each once, in order, up to the limit, and all of them below it |
| `MessageStore.ClaimedRows` | internal/store/messages.go:152-185 | after a claim the owner's rows with that lease end are those taken and those it already had |
| `MessageStore.ClaimedExactly` | internal/store/messages.go:141-200 | with no earlier lease of the owner ending then, the read-back is exactly the rows the UPDATE took, within the limit |
| `MessageStore.MessageRepo.Enqueue` | internal/store/messages.go:52-105 | a fresh identifier gets a row with every column as the draft or its default says, no other row changes; a used one changes nothing |
| `MessageStore.MessageRepo.ClaimUpdate` | internal/store/messages.go:149-173 | leases the earliest due rows that are not locked elsewhere, up to the limit, none of them under a lease still running, and changes no other row |
| `MessageStore.MessageRepo.ReadLeased` | internal/store/messages.go:181-199 | every row of that owner and lease end that is being sent, once, earliest due first |
| `MessageStore.MessageRepo.ClaimMessages` | internal/store/messages.go:141-200 | refuses an anonymous owner, claims nothing for a limit of zero, otherwise claims and reads back |
| `MessageStore.MessageRepo.ExtendLease` | internal/store/messages.go:204-213 | moves the lease end exactly for the current owner, otherwise reports not found |
| `MessageStore.MessageRepo.MarkSent` | internal/store/messages.go:216-229 | records success exactly for the current owner |
| `MessageStore.MessageRepo.Defer` | internal/store/messages.go:243-256 | records a temporary failure exactly for the current owner |
| `MessageStore.MessageRepo.Fail` | internal/store/messages.go:260-273 | records a final failure exactly for the current owner |
| `MessageStore.MessageRepo.Requeue` | internal/store/messages.go:277-289 | puts failed, deferred and held messages back; conflict or not found otherwise |
| `MessageStore.MessageRepo.Hold` | internal/store/messages.go:292-303 | holds queued, deferred and failed messages; conflict or not found otherwise |
| `MessageStore.MessageRepo.Delete` | internal/store/messages.go:306-312 | removes a message that is not being sent; conflict or not found otherwise |
| `MessageStore.MessageRepo.ReleaseExpiredLeases` | internal/store/messages.go:319-330 | exactly the abandoned rows go back to the queue, and their number is returned |
| `MessageStore.MessageRepo.Purge` | internal/store/messages.go:334-344 | exactly the finished rows older than the cutoffs go, and their number is returned |
| `Worker.Runner.RecordFailure` | internal/queue/worker.go:295-335 | succeeds exactly when this worker still holds the lease, and then the row shows the result: failed for good under the permanent error's code and text, deferred to the later of schedule and request, or given up |
| `Worker.Runner.Finish` | internal/queue/worker.go:235-258 | so it does for every result, and a delivery is shown as sent |
| `Dispatch.Dispatcher.HandOut` | internal/queue/worker.go:158-171 | hands out copies one by one, waiting for a delivery to end when no slot is free and stopping if cancelled while it waits |
| `Dispatch.Dispatcher.Round` | internal/queue/worker.go:155-171 | claims as many messages as there are free slots and hands them out; it never waits unless a lease of this worker already ends when the new ones do |
| `Dispatch.HandKeepsSlots` | internal/queue/worker.go:158-171 | however long it waits, no more slots are taken than there are, and it stops early only with all taken |
| `Dispatch.HandCounts` | internal/queue/worker.go:158-171 | the slots taken are those of the deliveries that run |
| `Dispatch.HandAt` | internal/queue/worker.go:158-171 | whatever runs afterwards ran before, or is a claimed message with its own copy and serial |
| `Dispatch.HandNeverWaits` | internal/queue/worker.go:158-171 | with a free slot for each, all are handed out without waiting |
| `Dispatch.HandGetsThrough` | internal/queue/worker.go:158-171 | as long as enough running deliveries end it waits for them and hands out all |
| `Dispatch.Dispatcher.Finish` | internal/queue/worker.go:165-169 | the end of a delivery is the protocol's record step and frees one slot |
| `Dispatch.Dispatcher.Stop` | internal/queue/worker.go:223-228 | a cancelled delivery is the protocol's stop step: the row is left to its lease |
| `Dispatch.HandedOutIsRead` | internal/queue/worker.go:158-172 | handing out a claim one by one is the protocol's read-back step |
| `Dispatch.RoundFollows` | internal/queue/worker.go:147-205 | in a paced run an uninterrupted round is a legal claim and read-back of the protocol, with the same table and deliveries |
| `Moves.OneMove` | internal/store/messages.go:141-344 | every protocol step makes one allowed move on a row, or removes it for a listed reason, or is its enqueue |
| `RowLaws.ReachableShape` | internal/store/messages.go:56-344 | in every reachable state a row is being sent iff it has an owner and iff it has a lease end |
| `RowLaws.ClaimableExactly` | internal/store/messages.go:156-165 | a reachable row can be claimed iff it is queued or deferred and due, or its lease has run out |
| `RowLaws.ReleaseKeepsClaimable` | internal/store/messages.go:314-330 | releasing expired leases never changes what can be claimed from then on |
| `RowLaws.RowsVanishExactly` | internal/store/messages.go:306-344 | at any step a row vanishes iff it is deleted while not being sent, or purged once sent or failed |
| `RowLaws.SentIsFinal` | internal/store/messages.go:141-344 | from any point of any run, a sent row never changes again |
| `RowLaws.ParkedUntilRequeued` | internal/store/messages.go:141-303 | a held or failed message is claimed or delivered only after a requeue in between |
| `RowLaws.OnlyTheOwnerRecords` | internal/store/messages.go:216-273 | an outcome changes a row iff its worker is the row's current lease owner; then the lease is gone and one attempt is counted |
| `RowLaws.AttemptsAreOutcomes` | internal/store/messages.go:216-289 | in every run a row's attempts are the outcomes ever recorded for it, requeues included |
| `RowLaws.ClaimBetweenOutcomes` | internal/store/messages.go:141-273 | two recorded outcomes of one message always have a claim of it between them |
| `History.DeliveredIsSent` | internal/store/messages.go:216-273 | a recorded result counts one attempt, ends the lease and leaves the row sent, as of then and without an error, iff it was a delivery |
| `History.ResultIsShown` | internal/queue/worker.go:235-335 | the row shows whatever the transport answered: sent, failed with the permanent error, deferred until the later of schedule and request, or given up with the number of attempts |
| `History.DeferredWaits` | internal/queue/worker.go:307-324 | a deferred message is due strictly after its result and no earlier than the upstream asked |
| `History.SentExactly` | internal/queue/worker.go:235-258 | in every run a message is marked sent iff some delivery of it was recorded, at that instant |
| `History.DueAndAccepted` | internal/store/messages.go:52-330 | in every run a row was accepted when its enqueue says and is due when its enqueue, last requeue or last deferral says; nothing else moves either |
| `History.ReleasedExactly` | internal/store/messages.go:319-330 | housekeeping puts back exactly the rows being sent under a lease that has ended, and keeps all their other columns |
| `Fencing.ReachableGrants` | internal/store/messages.go:141-213 | in every paced run leases, deliveries and pending claims were all granted, and an unread claim shares its lease with nothing |
| `Fencing.ReadBackIsClaimed` | internal/store/messages.go:181-199 | in a paced run a read-back, however late, returns only rows its own UPDATE took, none twice |
| `Fencing.SlotsSuffice` | internal/queue/worker.go:147-172 | in every paced run no worker runs more deliveries than its slots, and handing out a claim never blocks |
| `Fencing.ReachableFence` | internal/store/messages.go:141-344 | in every paced and punctual run each delivery matches its row, exclusively, and an unread claim holds all it took until its lease ends |
| `Fencing.NoDoubleDelivery` | internal/queue/worker.go:208-259 | over every interleaving, if no delivery outruns its lease, no message ever has two deliveries in flight |
| `Fencing.SnapshotAgrees` | internal/queue/worker.go:295-324 | in such a run a worker's snapshot of owner, attempts and acceptance time agrees with the row |
| `Fencing.ReadBackIsExact` | internal/store/messages.go:141-200 | in such a run a read-back within its lease returns exactly what its UPDATE took, earliest due first, within the free slots |
| `Fencing.StrictClaimsArePaced` | internal/queue/worker.go:147-205 | strictly increasing claim instants of each worker make every run paced |
| `Budget.DeferredWithinBudget` | internal/queue/worker.go:295-324 | in such a run a deferred row has at least one attempt and fewer than the maximum |
| `Budget.DeferralsBounded` | internal/queue/backoff.go:44-59 | a message is deferred at most maximum minus one times in its life, operator retries included |
| `Necessity.TakenOverExactly` | internal/store/messages.go:152-172 | a free worker can claim a message, in flight or not, iff it is up for claim: queued or deferred and due, or its lease run out |
| `Necessity.ClaimableOverlaps` | internal/queue/worker.go:208-259 | from every reachable state in which the message of a running delivery is up for claim, two legal steps deliver it a second time |
| `Necessity.OutrunIsUpForClaim` | internal/store/messages.go:156-165 | that is so once a delivery has outrun its lease and its row is untouched or released |
| `Necessity.PunctualNotUpForClaim` | internal/store/messages.go:156-165 | and never so in a paced and punctual run |
| `Necessity.PunctualityIsNeeded` | internal/queue/worker.go:208-259 | a legal and paced run in which a delivery outruns its lease and its message is delivered twice at once |
| `Necessity.RepeatedLeaseEndOverlaps` | internal/store/messages.go:181-199 | a claim repeating the lease end of a running delivery of its worker reads that message back and starts it again |
| `Necessity.PacingIsNeeded` | internal/store/messages.go:181-199 | a legal and punctual run in which one worker is granted a lease end twice and delivers a message twice at once |
| `TokenBucket.BucketCountsWindows` | internal/queue/ratelimit.go:140-196 | for every call sequence, out-of-order instants included, the bucket admits exactly the calls whose every window stays within capacity plus rate times length |
| `TokenBucket.RateIsKept` | internal/queue/ratelimit.go:169-196 | every stretch of admissions keeps that bound |
| `TokenBucket.RunIsBounded` | internal/queue/ratelimit.go:140-196 | a whole run admits at most perMinute times one plus the minutes it spans |
| `TokenBucket.DelayIsTight` | internal/queue/ratelimit.go:179-182 | a refused caller is told at most the exact time to the next token and less than two nanoseconds short of it, despite both truncations |
| `TokenBucket.DelaySuffices` | internal/queue/ratelimit.go:169-196 | an earlier call is refused too, and one two nanoseconds after the delay is admitted |
| `TokenBucket.SharedBucket.RefillTo` | internal/queue/ratelimit.go:185-196 | refills in place, capped, ignoring an instant that is not later, and keeps the window equivalence |
| `TokenBucket.SharedBucket.TakeAt` | internal/queue/ratelimit.go:169-183 | admits iff every window of past admissions has room, else returns the tight delay |
| `TokenBucket.SharedBucket.Wait` | internal/queue/ratelimit.go:151-166 | succeeds iff at some reading every window has room, consuming exactly one token then and none on cancellation |
| `Limiter.HoldersAfter` | internal/queue/ratelimit.go:70-88 | one caller moving changes the holders of its own generation only, by the slot it gains or loses |
| `Limiter.Limiter.ForMailbox` | internal/queue/ratelimit.go:90-120 | finds a limiter of that mailbox whose budget is the merge of defaults and overrides, the one it has if that is its budget, otherwise a new empty one |
| `Limiter.Limiter.DoArrive` | internal/queue/ratelimit.go:70-71 | a new caller is bound to its mailbox's current generation, of the merged budget |
| `Limiter.Limiter.DoTakeSlot` | internal/queue/ratelimit.go:73-79 | succeeds iff fewer callers hold a slot of the generation than its budget allows |
| `Limiter.Limiter.DoTakeToken` | internal/queue/ratelimit.go:81-84 | a look at the generation's bucket: let through with the slot kept, or not yet |
| `Limiter.Limiter.DoCancel` | internal/queue/ratelimit.go:77-84 | a cancelled wait returns a slot it had taken, once, and none otherwise |
| `Limiter.Limiter.DoRelease` | internal/queue/ratelimit.go:86-87 | the first release returns the slot to the semaphore it came from, later ones change nothing, also after a budget change |
| `Limiter.Limiter.DoForget` | internal/queue/ratelimit.go:123-127 | dropping a mailbox takes its entry alone, and leaves callers and their slots |
| `Limiter.EffectivePermitted` | internal/queue/ratelimit.go:43-54 | every effective budget is one Exchange permits, and a permitted override wins |
| `Limiter.ClampPermitted` | internal/queue/ratelimit.go:43-64 | whatever defaults are configured come to permitted ones: thirty and two where unset, capped at thirty and three |
| `Limiter.EffectiveMerges` | internal/queue/ratelimit.go:111-120 | field by field, a mailbox gets the default where it sets nothing and otherwise what it sets, capped |
| `Limiter.SoundStep` | internal/queue/ratelimit.go:70-127 | every step keeps occupancy equal to the callers holding or awaiting a token, within the budget |
| `LimiterLaws.ReachableSound` | internal/queue/ratelimit.go:70-127 | in every run each generation's occupancy is its holders, at most its budget, at most three |
| `LimiterLaws.GenerationRate` | internal/queue/ratelimit.go:70-196 | in every run each generation lets callers through exactly as its windows have room, so every stretch is within its rate |
| `LimiterLaws.CallsGetTheirBudget` | internal/queue/ratelimit.go:70-120 | in every run each call waits for life on a limiter of the mailbox it asked for, whose budget is the merge of the defaults with what it asked for |
| `LimiterLaws.DroppedStartsOver` | internal/queue/ratelimit.go:90-127 | the first call after a mailbox was dropped finds a limiter of its own, empty and with a full bucket |
| `MailboxLimits.MailboxBound` | internal/queue/ratelimit.go:90-109 | in every run a mailbox has at most three submissions at once for each of its generations that has any |
| `MailboxLimits.SteadyBudget` | internal/queue/ratelimit.go:70-196 | asked for with one effective budget and never dropped, a mailbox keeps both of Exchange's limits |
| `MailboxLimits.ConcurrencyKeptExactly` | internal/queue/ratelimit.go:90-120 | over all runs that ask for a mailbox with a set of budgets and never drop it, its submissions at once stay within three iff the budgets all come to the same effective one |
| `MailboxLimits.RateKeptExactly` | internal/queue/ratelimit.go:90-196 | over the same runs every stretch of its messages is within thirty times one plus the minutes it spans iff the budgets all come to the same effective one |
| `MailboxLimits.SixAtOnce` | internal/queue/ratelimit.go:90-109 | a run with a lowered rate in which a mailbox has six submissions at once |
| `MailboxLimits.FiftyNineAtOneInstant` | internal/queue/ratelimit.go:90-109 | a run with a lowered rate in which thirty and then twenty-nine messages are let through at one instant |
| `HeaderText.SplitLines` | internal/smtpsrv/headers.go:224-236 | the text cut into lines that end with LF, except perhaps the last |
| `HeaderText.LinesUnique` | internal/smtpsrv/headers.go:224-236 | there is only one such cut |
| `Rewriting.CollectEdits` | internal/smtpsrv/headers.go:125-141 | prepended fields in order, and the last in-place edit of each name |
| `Rewriting.CopyLine` | internal/smtpsrv/headers.go:149-190 | one turn of the loop keeps output, seen names and the skipping flag equal to the edit on fields so far; a line starting with a space or tab goes the way of the field before it |
| `Rewriting.CopyFields` | internal/smtpsrv/headers.go:143-190 | the line loop refines the edit on logical fields: replaced, deleted with continuations, or copied |
| `Rewriting.AppendMissing` | internal/smtpsrv/headers.go:192-197 | the fields the message did not have, whatever order the map is walked in |
| `Rewriting.RewriteHeaders` | internal/smtpsrv/headers.go:124-201 | the whole rewrite: prepended, edited and missing fields, a blank line, and the body as it was |
| `HeaderLaws.SanitizeIsOneLine` | internal/smtpsrv/headers.go:215-221 | no value contains a line break once sanitized |
| `HeaderLaws.NewLinesClean` | internal/smtpsrv/headers.go:124-221 | every header line written is one non-empty line |
| `HeaderLaws.SeparatorFound` | internal/smtpsrv/headers.go:78-86 | the first separator of clean lines, a blank line and any body is that blank line, iff there is a line |
| `HeaderLaws.BodyIsKept` | internal/smtpsrv/headers.go:78-221 | parsing a rewritten message finds exactly the original body, byte for byte, iff at least one header line is left |
| `HeaderLaws.StampedBodyIsKept` | internal/smtpsrv/session.go:318-336 | with any prepended field that is always so |
| `HeaderLaws.NoExtraLine` | internal/smtpsrv/headers.go:203-221 | the new block splits into exactly the lines written and the blank one: no value adds a line |
| `HeaderLaws.RewrittenReadsBack` | internal/smtpsrv/headers.go:78-201 | finding and splitting the header of the rewritten message gives back every line written |
| `HeaderLaws.BlockEndsBlank` | internal/smtpsrv/headers.go:78-86 | the header block found in any message ends with a blank line |
| `HeaderLaws.NoLineLostExactly` | internal/smtpsrv/headers.go:149-156 | all lines before the separator reach the rewriter iff it is the first blank line |
| `HeaderLaws.EarlierBlankLineLosesField` | internal/smtpsrv/headers.go:78-86 | a message with an LF blank line before a CRLF separator loses the field in between |
| `HeaderLaws.FieldsFlatten` | internal/smtpsrv/headers.go:149-190 | grouping lines into fields loses and reorders nothing |
| `HeaderLaws.NoEditsIdentity` | internal/smtpsrv/headers.go:124-201 | without edits a message in wire form comes back byte for byte |
| `HeaderFields.HeaderLineParses` | internal/smtpsrv/headers.go:203-210 | a written field reads back under its own name |
| `HeaderFields.UnmentionedKept` | internal/smtpsrv/headers.go:143-190 | fields no edit mentions are the original ones, in order, with their continuations |
| `HeaderFields.MentionedReplaced` | internal/smtpsrv/headers.go:174-197 | every occurrence of a mentioned field is exactly its new value |
| `HeaderFields.MentionedPresentExactly` | internal/smtpsrv/headers.go:174-197 | a mentioned field is present iff its new value is not empty, in any order of appending |
| `HeaderFields.RewriteByField` | internal/smtpsrv/headers.go:47-236 | from message to message: the rewritten header, found, split and grouped again, is the prepended fields and then the edit on fields |
| `HeaderFields.EmptiedHeaderMovesBoundary` | internal/smtpsrv/headers.go:78-201 | for a message with one field, which is deleted, and any body, the boundary found afterwards is another |
| `HeaderBytes.HeaderEndExactly` | internal/smtpsrv/headers.go:78-86 | the header ends after the first CRLF CRLF, without any after the first LF LF, and otherwise nowhere |
| `HeaderBytes.FoldJoins` | internal/smtpsrv/headers.go:157-163 | a line joins the field before it iff its first byte is a space or a tab |
| `HeaderBytes.KeyExactly` | internal/smtpsrv/headers.go:165-174 | a field has a name iff its first line has a colon, not first, and does not start with white space: what is before the first colon, trimmed |
| `HeaderBytes.CollapseBreaks` | internal/smtpsrv/headers.go:215-221 | CRLF, CR and LF in a value become one space each and nothing else changes |
| `HeaderBytes.WrittenLine` | internal/smtpsrv/headers.go:203-221 | what is written for a field, with and without a line break in its value |
| `HeaderBytes.LastEditWins` | internal/smtpsrv/headers.go:125-134 | a name is edited iff some edit in place is of it, and the last one decides |
| `HeaderBytes.PrependsInOrder` | internal/smtpsrv/headers.go:128-141 | prepended fields are written in the order of their edits |
| `HeaderBytes.FoldedFieldEdited` | internal/smtpsrv/headers.go:143-190 | a field folded with spaces or tabs over any number of lines: if edited none of its lines is left and its new value or nothing stands there, otherwise all stay |
| `HeaderBytes.FoldedFieldRewritten` | internal/smtpsrv/headers.go:124-201 | the same for the whole rewritten message, byte for byte |
| `Stamping.OccursExactly` | internal/smtpsrv/headers.go:174-197 | a mentioned field occurs as often as in the message and at least once, added only where missing; never if its new value is empty |
| `Stamping.ReadBackExists` | internal/smtpsrv/headers.go:78-236 | every rewritten message with a header line can be parsed and split again, into exactly the lines written |
| `Stamping.AcceptedKeepsFields` | internal/smtpsrv/session.go:318-336 | an accepted message leaves with its trace field first and otherwise the fields it came with |
| `Stamping.RewrittenSender` | internal/smtpsrv/session.go:318-336 | a rewritten message has a From field, every From field is the mailbox, the original sender is kept, no field an edit does not name changes, and it has a Reply-To: its own survive iff the first one the library reads has a value, else every one is the original sender |
| `Stamping.SpacedReplyToIsAdded` | internal/smtpsrv/session.go:329-331 | a message whose only Reply-To has a space before the colon is given another, which the rewriter puts in its place |
| `Senders.EveryFromEntitledExactly` | internal/smtpsrv/session.go:202-217 | under the reject policy every From field of a submitted message is one the sender is entitled to iff all but the first one the library reads are |
| `Senders.SecondFromUnjudged` | internal/smtpsrv/session.go:202-217 | for every sender, a message with an own From field and then any other is submitted |
| `Senders.SpacedFromUnjudged` | internal/smtpsrv/headers.go:60-104 | so is one with any other From field first, if it has a space before the colon |
| `Policy.DomainPattern` | internal/policy/address.go:150-164 | a domain pattern matches exactly the addresses ending with that domain |
| `Policy.MatchesExactly` | internal/policy/address.go:150-164 | what every pattern matches: an equal address, or after `*@` the addresses ending with a domain that is not empty and has no other `@` |
| `Policy.MatchMailbox` | internal/policy/resolve.go:152-159 | a granted mailbox with that address, or none has it |
| `Policy.DefaultMailbox` | internal/policy/resolve.go:163-172 | a granted mailbox with the configured identifier if there is one, otherwise the first |
| `Policy.ThroughExactly` | internal/policy/resolve.go:96-172 | a message leaves by the first mailbox with the sender's address, else the configured default, else the first granted |
| `Policy.ResolveExactly` | internal/policy/resolve.go:80-149 | a submission passes iff account, sender, mailbox and entitlement or lenient policy allow it, and then leaves by that granted mailbox; a refusal is temporary iff only the policy is unknown |
| `Policy.RejectPolicyHolds` | internal/policy/resolve.go:116-149 | under the reject policy the sender is the mailbox's address or matches an allowed pattern |
| `Session.EnvelopeHolds` | internal/smtpsrv/session.go:120-170 | on every trace the recipients are those accepted since the last MAIL, reset or upgrade, within the maximum |
| `Session.SenderHolds` | internal/smtpsrv/session.go:120-144 | on every trace the envelope sender is that of the last MAIL accepted since a reset or upgrade, over TLS where required; encrypted iff from the start or since an upgrade; no login where AUTH is not allowed |
| `Session.IdentityFromLogin` | internal/smtpsrv/session.go:52-94 | an identity is always that of the latest successful password check since the connection was upgraded |
| `Session.IdentityExactly` | internal/smtpsrv/session.go:52-94 | a session has an identity iff it is that of such a check |
| `Session.AnsweredExactly` | internal/smtpsrv/session.go:52-278 | on every trace, which reply every command gets, from login, encryption, accepted recipients and what the outside answers |
| `Session.SubmissionsAreEntitled` | internal/smtpsrv/session.go:52-278 | on every trace, upgrades included, each submission follows a login, carries the sender of the last MAIL and exactly the accepted recipients, over TLS where demanded, and leaves by an enabled granted mailbox within the policy |
| `Guesses.FailuresCounted` | internal/smtpsrv/session.go:98-117 | on every trace a session closes iff its counter reaches the limit, and a connection's failed checks are that counter plus at most what it carried over an upgrade |
| `Guesses.CountedExactly` | internal/smtpsrv/session.go:98-117 | a session has counted exactly the failed logins since it began, requests to act as another account included, and is closed iff they reach the limit |
| `Guesses.GuessesBounded` | internal/smtpsrv/session.go:98-117 | no connection has more failed password checks than twice the limit less one |
| `Guesses.BoundAttained` | internal/smtpsrv/server.go:360-366 | a trace that reaches it: one guess short of the limit, an upgrade, and the limit again |
| `Guesses.GuessesWithinLimitExactly` | internal/smtpsrv/session.go:44-117 | no connection has more than the limit iff AUTH is refused before TLS, no upgrade is offered, or the limit is one |
| `Session.SmtpSession.Authenticate` | internal/smtpsrv/session.go:75-94 | sets the identity on success, otherwise counts a failure and returns the one authentication error |
| `Session.SmtpSession.RecordAuthFailure` | internal/smtpsrv/session.go:98-117 | counts, and closes the connection at the maximum |
| `Session.SmtpSession.DoAuthPlain` | internal/smtpsrv/auth.go:46-55 | the PLAIN exchange as a step of the trace: a malformed one counts nothing, a foreign authorization identity counts a failure |
| `Session.SmtpSession.DoAuthLogin` | internal/smtpsrv/auth.go:57-60 | runs the LOGIN exchange as a step of the trace: only a checked password can count as a failure |
| `Session.Connection.DoStartTls` | internal/smtpsrv/server.go:360-366 | an upgrade replaces the session by a fresh encrypted one |
| `Session.SmtpSession.DoMail` | internal/smtpsrv/session.go:120-144 | MAIL as a step of the trace: accepted, it stores the sender and clears the recipients; refused, it changes nothing |
| `Session.SmtpSession.DoRcpt` | internal/smtpsrv/session.go:147-170 | RCPT as a step of the trace: accepted, it adds the recipient as written; refused, it changes nothing |
| `Session.SmtpSession.DoData` | internal/smtpsrv/session.go:173-278 | DATA: the reply, and what is handed to the queue |
| `Session.SmtpSession.DoReset` | internal/smtpsrv/session.go:364-367 | forgets the envelope and keeps the login |
| `SaslLogin.OneCheck` | internal/smtpsrv/sasl_login.go:58-91 | whatever a client sends, one exchange checks at most one password, sent right after its username, both within the limit |
| `SaslLogin.LoginServer.Next` | internal/smtpsrv/sasl_login.go:58-91 | one turn of the exchange in place |
| `SaslLogin.EndIsCheck` | internal/smtpsrv/sasl_login.go:58-91 | an exchange ends with a password check iff one of its answers is that check |
| `SaslLogin.LoginExactly` | internal/smtpsrv/sasl_login.go:58-91 | how every exchange ends: the first response given is the username, the next the password, checked iff both are within the limit |
| `SaslLogin.LoginServer.Run` | internal/smtpsrv/sasl_login.go:58-91 | the whole exchange: a password to check, a field over the limit, or unfinished |
| `Expand.ExpandDocument` | internal/config/expand.go:44-128 | the index loop with its flags computes the lexer's expansion, failures included |
| `Expand.EscapeRoundTrip` | internal/config/expand.go:44-128 | doubling each dollar sign the lexer acts on and expanding gives the document back, for any resolver |
| `Expand.CommentVerbatim` | internal/config/expand.go:56-94 | comment text is copied verbatim, references included |
| `ExpandText.LineBreak` | internal/config/expand.go:60-62 | a line break ends comment and quotes in every state |
| `ExpandText.HashOutside` | internal/config/expand.go:84-87 | outside quotes a hash opens a comment iff it is first in its line or after white space |
| `ExpandText.HashQuoted` | internal/config/expand.go:65-81 | inside quotes it never does |
| `ExpandText.QuoteOpens` | internal/config/expand.go:82-83 | a quotation mark outside quotes opens its kind |
| `ExpandText.QuoteCloses` | internal/config/expand.go:79-81 | it closes its own kind and not the other |
| `ExpandText.Escapes` | internal/config/expand.go:66-78 | a doubled mark in single quotes, and a backslash with its byte in double quotes, are copied and close nothing |
| `ExpandText.Ordinary` | internal/config/expand.go:96-101 | every other byte is copied and changes no state |
| `ExpandText.DollarAlone` | internal/config/expand.go:102-112 | two dollar signs are one, and one before anything but a brace is itself |
| `ExpandText.ReferenceBecomes` | internal/config/expand.go:114-126 | a reference, quoted or not, becomes what the text up to the first closing brace resolves to, or fails with its error |
| `ExpandText.Unclosed` | internal/config/expand.go:114-117 | without a closing brace the expansion fails |
| `ExpandText.CommentOnLine` | internal/config/expand.go:59-94 | a whole line with text, a hash and anything: copied from the hash on iff that is first or after white space |
| `Expand.ResolveFailsExactly` | internal/config/expand.go:130-148 | a variable reference fails iff it has no default and the variable is unset or empty |
| `ExpandText.ResolvesTo` | internal/config/expand.go:130-148 | what every reference resolves to: a set variable wins over the default, which is all behind the first `:-`; files and the empty reference included |
| `Reconcile.DoIsIdempotent` | internal/bootstrap/bootstrap.go:300-546 | writing an object twice is writing it once |
| `Reconcile.PlanTargetsDistinct` | internal/bootstrap/bootstrap.go:113-238 | a validated file writes every object once |
| `Reconcile.ReconcileResumes` | internal/bootstrap/bootstrap.go:261-546 | stopping after any write and running again reaches the state, and the success or failure, of one clean run |
| `Reconcile.ReconcileSurvivesInterruptions` | internal/bootstrap/bootstrap.go:261-546 | so does any number of interrupted runs followed by a complete one |
| `Reconcile.SecondRunCreatesNothing` | internal/bootstrap/bootstrap.go:261-546 | a further run creates nothing and changes nothing |
| `References.ReferencesSurvive` | internal/bootstrap/bootstrap.go:261-546 | after any write of any run no reference dangles if none did before |
| `References.CompleteRunIsTheFile` | internal/bootstrap/bootstrap.go:261-546 | a complete run writes each declared object over what the store had, and leaves every other object alone |
| `References.CredentialAsDeclared` | internal/bootstrap/bootstrap.go:300-381 | after a complete run a credential has its declared fields, a secret, certificate or key left out is the one it had, and what the file does not declare is unchanged |
| `References.MailboxAsDeclared` | internal/bootstrap/bootstrap.go:383-448 | after a complete run a mailbox has its declared fields, limits that are not positive meaning none |
| `References.AccountAsDeclared` | internal/bootstrap/bootstrap.go:450-546 | after a complete run an account has its declared fields and exactly its declared patterns, and keeps when it was last used |
| `Grants.GrantIsIntended` | internal/store/mailboxes.go:82-97 | after a complete run an account may send as exactly the mailboxes it lists and its default if that address is known |
| `Grants.DefaultGrantedExactly` | internal/bootstrap/bootstrap.go:450-477 | a declared default is granted iff its address is declared in the file or listed by this account or an earlier one |
| `Grants.GrantEmptyExactly` | internal/bootstrap/bootstrap.go:450-477 | an account may send as nothing iff it lists no mailbox and has no default or an unknown one |
| `Grants.OrderDecidesGrant` | internal/bootstrap/bootstrap.go:450-477 | two files that differ in the order of two accounts and leave one with a mailbox or with none |
| `Completion.CompletesExactly` | internal/bootstrap/bootstrap.go:261-467 | a run completes iff every credential a mailbox names and every mailbox an account lists is declared in the file or in the store |
| `Completion.CountsExactly` | internal/bootstrap/bootstrap.go:261-546 | a complete run creates exactly the declared objects the store did not have and updates all others |
| `Completion.DefaultStored` | internal/bootstrap/bootstrap.go:469-474 | the default stored for an account: the declared one iff the file declares its address or this or an earlier account lists it; without one the first listed |
| `Applier.Applier.ApplyCredential` | internal/bootstrap/bootstrap.go:300-381 | creates or updates in place, keeping secrets not given again |
| `Applier.Applier.ApplyMailbox` | internal/bootstrap/bootstrap.go:383-441 | creates or updates in place, or fails on an unknown credential |
| `Applier.Applier.ApplyAccount` | internal/bootstrap/bootstrap.go:450-546 | writes account, links and patterns, or fails on an unknown mailbox, and remembers the addresses it resolved |
| `Applier.Applier.Apply` | internal/bootstrap/bootstrap.go:261-291 | the three loops end in the state, the outcome and the counts of the file's plan |
| `Diagnostics.DiagnosticStore.EnqueueDiagnostic` | internal/store/diagnostics.go:13-83 | all three tables change together or not at all, whichever statement fails, and the three results are returned as the statements set them |
| `Diagnostics.AnswerMeans` | internal/store/diagnostics.go:13-83 | an answer without an error is new iff a message was created; with an error nothing changed, and it still says new iff only the audit entry or the commit failed |
| `Diagnostics.AnswerExactly` | internal/store/diagnostics.go:13-83 | when a request creates, conflicts or finds nothing, in terms of its key, its mailbox and credential, and which statement fails |
| `Diagnostics.DiagnosticStore.Remove` | internal/store/migrations/sqlite/0002_diagnostics.up.sql:7 | deleting a message clears references to it and keeps the reservation |
| `Diagnostics.AtMostOneMessage` | internal/store/diagnostics.go:13-83 | over any run at most one message is created for an actor and request, and a key is reserved iff one was |
| `Diagnostics.AuditCountsCreations` | internal/store/diagnostics.go:66-80 | test-send audit entries equal test messages ever created |
| `Diagnostics.AuditListsCreations` | internal/store/diagnostics.go:66-80 | and they are exactly those messages, in order and by key |
| `Diagnostics.QueueExactly` | internal/store/diagnostics.go:13-83 | the queue has exactly the messages put there and not removed since |
| `Diagnostics.ChangedPayloadConflicts` | internal/store/diagnostics.go:25-37 | once a key has created a message, another mailbox or recipient under it always conflicts |
| `Diagnostics.ReservationKeepsPayload` | internal/store/diagnostics.go:15-17 | every reservation was made, with its mailbox and recipient, by the request that created its message |
| `Diagnostics.ReplayIsLive` | internal/store/diagnostics.go:25-37 | a repeated request replays the message its key created iff mailbox and recipient are the same and no event removed that message since; what it answers with is in the queue |
| `Connections.SumIsTotal` | internal/smtpsrv/limits.go:30-62 | the per-host counters add up to the total |
| `Connections.AgreesClosed` | internal/smtpsrv/limits.go:48-62 | releasing a held slot keeps counters equal to open connections and keeps no host at zero |
| `Connections.ConnLimiter.Acquire` | internal/smtpsrv/limits.go:30-45 | refuses iff a cap is reached, a cap that is not positive being none |
| `Connections.ConnLimiter.Release` | internal/smtpsrv/limits.go:48-62 | returns one slot and drops a host that reaches zero |
| `Connections.Gate.Admit` | internal/smtpsrv/server.go:381-397 | admits iff neither cap is reached by the connections actually open |
| `Connections.Gate.Close` | internal/smtpsrv/server.go:425-428 | any number of closes returns the slot once |
| `Connections.Gate.Accept` | internal/smtpsrv/server.go:381-413 | returns the first arrival that fits and has a good header; refusals and failed handshakes leave no slot behind, and only the returned connection is new |

## Left out

- The admin interface, the web UI and the command line: they reach the queue through the statements modelled here.
- Upstream transports and OAuth: sending is an arbitrary success, permanent or temporary result.
- SQL text, dialects and pooling: a statement or a transaction body is one atomic step; listing and counting are not modelled.
- Message bodies and blobs, and preparing a delivery: a preparation error is one of the permanent results.
- Clock skew between replicas: all readings come from one non-decreasing clock, though each may be stale.
- Rounding of floating-point numbers: token levels and jitter are exact reals.
- Identifiers are opaque numbers that are never used twice, and an address or host is compared by equality of its folded form.
- TLS, PROXY header decoding, source-address checks, metrics and logging.
- Address, header-field and list parsing by libraries: their results are inputs. That parser refuses a message whose first header line is a continuation, which is the condition the by-name lemmas of `HeaderFields` and `Stamping` carry.
- The text of the trace header, the limit on header size and the loop that reads the payload.
- `ValidatePattern`, the other checks of the bootstrap file and of the configuration, and reading a referenced file.
- Encryption of stored secrets: a sealed secret is what it seals.
- Applying a bootstrap file once without reconciling: existing objects are then only skipped.
- Bootstrap audit entries, and failures of single database writes during a run other than stopping between two of them.
- TokenBucket.SharedBucket.Wait: takes the clock readings between its sleeps as a sequence, and its end as cancellation.
- Dispatch.Dispatcher.Round: deliveries that end while it waits appear as the order of their ends; what they write to the table are separate steps of the protocol.
- Limiter.Limiter.DoArrive: the blocking call is its atomic steps, one method each, in any interleaving.
- Session.ReplyTo: the code of a failed authentication and of malformed commands is the protocol library's and not modelled, nor is that library's own refusal of commands out of order, which only allows fewer traces.
