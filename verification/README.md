# Email budgeting: a verified model

The service imports forwarded bank mails for a budgeting app. An edge worker stores a
mail in an object store and queues a message; a second worker delivers the message to
an HTTP handler, which dedups, rate-limits, extracts a transaction and writes it with
an outbox event in one transaction; users confirm, dismiss or reprocess what was
extracted; a poller POSTs outbox events to the receiver of the key that owns the
alias; deletion requests and a retention rule purge the raw mails.

This project models that service in Dafny and proves what it is built to guarantee.

## How it is organised

| files | what they hold |
|---|---|
| `Common`, `Digits`, `Text` | option type, decimal text, string operations |
| `Money`, `Fingerprint`, `ContentLines`, `Domains`, `Pipeline` | the pure kernels |
| `Schema` | the tables |
| `Review`, `Ingest`, `Privacy`, `Outbox` | every database operation as a function on the tables |
| `Session` | a database session (working and committed tables) and the object store, as classes |
| `ExtractionService`, `IngestService`, `ExtractionsApi`, `PrivacyService`, `DeliveryService`, `Workers`, `Feedback` | the services as methods that update those classes step by step, each proved equal to its function |
| `World` | the whole system as one transition system; every step may interleave with every other |
| `Frames`, `Runs`, `Exactness`, `Conservation`, `Counters`, `Announcements`, `RateBound`, `Erasure`, `ReviewRuns`, `OutboxRuns`, `Sequential` | what a step writes, runs put together, and the invariants, one step at a time |
| `Theorems`, `Receivers`, `Waiting`, `Deletion`, `Admission`, `Originals`, `Readings`, `Retries`, `Witnesses` | the results over all runs, and where stronger claims fail |

Row ids are positions in their table; times are whole seconds. Three fields are
history that no operation reads: `Email.origin` (the object key a row was inserted
with) and `Event.tries` and `Event.lost` (the POSTs a receiver has really seen).

The steps of `World` are the places where the program can be interrupted or
interleaved: put, send and a worker crash between them; a delivery that passed the
first key lookup; the handler from the alias lock to its commit, or a fault anywhere
in it; an acknowledgement that may be lost after the commit; dead-lettering; alias
creation and deactivation; a deletion request; the purge's object deletion and its
later commit, or a crash between; bucket expiry; confirm, dismiss, reprocess; config
registration; a poller's claiming query, which locks its rows, and later the commit or
crash of its batch, with any number of pollers at once; the clock. The handler's body is one
step because it runs in one transaction under the alias row lock.

## Where the code promises less than it seems to

- Two overlapping deliveries of one key can both pass the key lookup, and the second
  then deletes an object a committed row owns. `Witnesses.OwnershipNeedsAGuard` proves
  ownership safety holds in all runs exactly when such overlap is excluded or the
  lookup is repeated under the alias lock.
- Rows are stamped with the start of their transaction, while the rate check reads the
  clock after waiting for the alias lock. `Witnesses.RateWindowIsExact` proves that
  the window really bounded is the configured one less that wait, and no longer one.
- For the same reason an event inserted while another waits may be due before it. Only
  deliveries already under way can insert one, each at most two (`Waiting.EarlyBounded`),
  so `Waiting.BoundedWait` allows for twice their number;
  `Witnesses.EarlyInsertComesFirst` is a run in which the bound without that allowance fails.
- The Message-ID check does not ask what became of the row it finds. A copy can be deleted
  as a duplicate of a mail whose object was missing, exactly when all rows it duplicates
  are such (`Ingest.DuplicateWithoutOriginal`); `Witnesses.DuplicateOfAnErrorRow` is a run
  that loses a mail that way.
- Attempts are scheduled from the start of their batch. Giving up takes the four backoffs
  from the start of the first attempt's batch; from its commit it is that batch's duration
  less, and never less than 4800 seconds (`Theorems.DeliveriesSound`).
- Confirm accepts failed rows, so a confirmed row lacks an amount exactly when it had
  failed (`Review.ConfirmedWithoutAmount`); a failed row keeps a confidence badge
  exactly when its amount was out of range (`Review.DegradedKeepsBand`).
- "Earlier" in the duplicate check means "oldest other live row".
  `Witnesses.ReprocessFlagsAgainstAYoungerRow` is a run of two equal purchases in which
  reprocessing the first flags it against the second, younger one;
  `Witnesses.ReprocessPointsAtTheOldest` says exactly when that happens. Dismissed and
  failed rows never count (`Originals.MatchesHaveEvidence`).
- A host that is itself a two-part suffix changes under a subdomain
  (`Domains.SubdomainsKeep`).

The kernels take any decimal and any currency text, and the exact limits beyond what the
extractors read (unsigned amounts of whole or two decimals, currencies without `|`) are
part of the results: `Money.EventMatchesDetail` and `Money.OverflowsExactly` for the
column, `Fingerprint.SameFields`, `Fingerprint.SubCentCollides` and
`Fingerprint.DelimiterInCurrencyCollides` for the fingerprint. On what the extractors
read the column always fits and prints alike (`Money.ExtractedAmountsAgree`).

## Model

| member | source | states |
|---|---|---|
| Theorems.ExactlyOnce | backend/app/api/internal.py:72-186 | in every run with retries, overlaps, crashes, deactivation, deletion, purge and expiry, a key leads to at most one extraction row and one extraction event, and emails_received is the number of keys accepted for the alias |
| Theorems.CountersAndEventsAgree | backend/app/api/internal.py:151-183 | emails_received equals the alias's non-error rows, one first-email event exactly when it is positive, extraction rows and events in bijection, and for every such event the run has the delivery that wrote it and left its row with that status, type, amount and flag |
| Theorems.EventPrintsTheDetail | backend/app/services/extraction_service.py:80-98 | over all runs an event's amount is the canonical print of its row's amount as written, and the detail view prints the same from the column if and only if the amount has at most four decimals and is no negative zero |
| Theorems.ObjectsConserved | backend/app/api/internal.py:49-57 | every stored object is owned by a row, uploading, queued, dead-lettered or leaked, and leaks come only from a worker crash or a failed orphan deletion |
| Theorems.OwnersKeepObjects | backend/app/api/internal.py:76-134 | without overlapping deliveries of one key, or with the lookup repeated under the lock, an accepted row's object is there unless the purge or the bucket lifecycle really removed it |
| Theorems.OrphansAreUnowned | backend/app/api/internal.py:49-134 | in such runs no row points at an object that a delivery deletes |
| Witnesses.OwnershipNeedsAGuard | backend/app/api/internal.py:76-112 | that ownership safety holds in all runs if and only if overlap is excluded or the lookup is repeated |
| Theorems.RateHolds | backend/app/api/internal.py:114-134 | every closed window of the configured length less the lock wait holds at most the limit of rows per alias |
| Admission.ReplyExactly | backend/app/api/internal.py:72-192 | when each of the six replies is given, on the tables as they are: accepted if and only if the alias is open, the key untaken, the Message-ID new to the alias, fewer than the limit of that alias's mails lie in the window and the object is there |
| Admission.ReplyByOwnMails | backend/app/api/internal.py:101-134 | on any two states with the same mails of the alias, the same switch and the same answer on the key, the reply is the same: no other alias's mail uses up budget or makes a duplicate |
| Admission.OthersDoNotCount | backend/app/api/internal.py:119-134 | one more mail of another alias with another key changes no reply |
| Admission.AliasStaysOpen | backend/app/services/privacy_service.py:34-45 | over every run an alias keeps owner and key, and is open at the end if and only if it was and neither it was deactivated nor its owner deleted; other users' deletions never close it |
| Admission.DeactivationIsFinal | backend/app/api/v1/aliases.py:96-108 | after a deactivation no run stores another mail of the alias, whatever deliveries were under way |
| Admission.OwnersAreCreators | backend/app/api/v1/aliases.py:33-58 | in every run each alias belongs to the user and key it was created for |
| Witnesses.RateWindowIsExact | backend/app/api/internal.py:119-134 | a window length is bounded in all runs if and only if it is at most the configured window less the longest wait |
| Theorems.DeletionComplete | backend/app/services/privacy_service.py:30-80 | from the commit of a deletion on, without a new alias, every raw mail of the user has a deadline and nothing new is accepted |
| Deletion.DeletionFinishes | backend/app/services/privacy_service.py:117-149 | after the grace period one failure-free sweep, interleaved with anything but a new alias, leaves no raw mail of the user, neither a pointer nor a stored object, whatever ran since the request |
| Deletion.DrainIsASweep | backend/app/services/privacy_service.py:117-149 | for both drains, the tables and the object store left are those a run of purge steps leaves, and a failure-free drain of at most 5000 matching mails is a sweep |
| Deletion.RetentionFinishes | backend/app/services/privacy_service.py:152-163 | one failure-free retention sweep, interleaved with anything, leaves neither pointer nor object of any mail older than the retention time when it began |
| Deletion.NothingPurgedUnasked | backend/app/services/privacy_service.py:48-60 | in every run a pointer is nulled only after a deletion request of the mail's owner and the whole grace period from it, or past the retention time |
| Theorems.NothingPurgedEarly | backend/app/services/privacy_service.py:139-163 | no pointer is null before its deadline or its retention time has come |
| Theorems.DecisionsAreFinal | backend/app/api/v1/extractions.py:152-191 | over any run confirmed and dismissed rows are frozen, deadlines write-once, nulled pointers stay null, settled events never change |
| Theorems.DecisionsWereMade | backend/app/api/v1/extractions.py:146-179 | in every run a confirmed or dismissed row was so decided by a step of the run, and carries the category or reason given there |
| Theorems.ReviewHolds | backend/app/services/extraction_service.py:47-77 | pending means an amount in range, failed means no amount and no fingerprint, undecided rows agree with their mail's status, the duplicate flag is the number of match rows, and each match points at another row of the same user |
| Theorems.PostsFollowTheKey | backend/app/services/webhook_delivery_service.py:59-127 | every POST for an event went to a config of the key that created its alias, at least as new as every config of that key registered when the POST's batch began |
| Receivers.NoReceiverPassedOver | backend/app/services/webhook_delivery_service.py:94-127 | for every POST the run has the step that claimed its event, at the recorded time and with the configs registered by then, and none of those is newer than the receiver used |
| Receivers.ConfigsAreRegistered | backend/app/api/v1/config.py:37-44 | the config table those results speak of is exactly what the run registered, in order |
| Theorems.DeliveriesSound | backend/app/services/webhook_delivery_service.py:120-154 | attempts, spacing, target, error and delivery time of every event fit its status in any run with crashes, and giving up takes at least 60+300+900+3600 seconds from the start of the first attempt's batch and at least 300+900+3600 from its commit |
| Retries.DueExactly | backend/app/services/webhook_delivery_service.py:91-154 | over every run an event is what the last committed batch that took it up made of it: due exactly 60 seconds after that batch began without a receiver, 60, 300, 900, 3600 after its first four failures, given up by the fifth, delivered by a success; untaken it is due from its delivery's start |
| Retries.RetriedOnTime | backend/app/services/webhook_delivery_service.py:147-151 | an event waiting after its nth recorded attempt and not put off since is due exactly the nth delay after that attempt's batch began |
| Retries.CrashOnlySends | backend/app/services/webhook_delivery_service.py:120-154 | a batch that crashes has sent one POST for each row it reached with a receiver, and recorded nothing |
| Theorems.PostsAreRecorded | backend/app/services/webhook_delivery_service.py:137-154 | in runs without a crash between a POST and its commit the recorded attempts are all the POSTs |
| Sequential.FirstRowIsOriginal | backend/app/services/duplicate_service.py:34-64 | in ordered ingest-and-confirm runs each class of equal fingerprints has exactly its first row unflagged and all others point at it |
| Originals.DeliveryFlags | backend/app/services/duplicate_service.py:27-65 | a delivered row is flagged if and only if it is pending with a fingerprint that some pending or confirmed row of its user has, with one match, at the oldest such row |
| Originals.ReprocessFlags | backend/app/api/v1/extractions.py:215-224 | the same for a reprocessed row, whose old matches are deleted first |
| Originals.DismissedIsNoEvidence | backend/app/services/duplicate_service.py:41-43 | a row whose only equals are dismissed stays unflagged |
| Originals.MatchesHaveEvidence | backend/app/services/duplicate_service.py:34-64 | over every run each match row was found by a delivery or a reprocessing, and pointed at the oldest row then pending or confirmed with that user and fingerprint |
| Witnesses.ReprocessFlagsAgainstAnyLiveRow | backend/app/api/v1/extractions.py:219-224 | a reprocessed row ends up flagged if and only if, with its newly mapped fields, it is pending with a fingerprint that another pending or confirmed row of its user has, older or younger |
| Witnesses.ReprocessPointsAtTheOldest | backend/app/services/duplicate_service.py:34-48 | the match points at a younger row if and only if the row is such a duplicate and all those rows are younger |
| Witnesses.ReprocessFlagsAgainstAYoungerRow | backend/app/api/v1/extractions.py:215-224 | a run from the start in which that happens |
| Exactness.ExactStep | backend/app/api/internal.py:72-157 | every step keeps keys unique and keeps two accepted rows from ever sharing an object key, also after the key was nulled |
| Exactness.MailAdded | backend/app/api/internal.py:137-157 | a row enters under a key nobody has, and counts only while its object exists, so no purged key is accepted twice |
| Conservation.ConservedStep | backend/app/api/internal.py:49-157 | every step keeps each stored object accounted for and adds leaks only where it may |
| Conservation.OwnersStep | backend/app/api/internal.py:94-134 | every guarded step keeps accepted rows' objects |
| Counters.AgreedStep | backend/app/api/internal.py:165-183 | every step keeps counters, first-email events and extraction events in agreement with the rows |
| Announcements.NewEventsTruthful | backend/app/services/extraction_service.py:172-178 | a step that adds an extraction event is a delivery, the event is about the row it added, and says that row's status, type, amount and flag |
| RateBound.ArrivalBounded | backend/app/api/internal.py:120-147 | a row admitted under the limit keeps every window bounded |
| Erasure.ErasedStep | backend/app/api/internal.py:89-96 | every step keeps an erased user's mails under a deadline, also when a delivery was under way |
| ReviewRuns.ReviewedStep | backend/app/api/v1/extractions.py:146-236 | every step keeps the review lifecycle and the pairing of flags and match rows |
| OutboxRuns.QueueGoodStep | backend/app/api/internal.py:161-183 | every step keeps events sound, routed and stamped with their alias's key |
| Frames.HandleStep | backend/app/api/internal.py:89-192 | one delivery rejects, records a missing object or stores a mail, and when the queue lets go of a message its object is owned, deleted or counted as leaked |
| Frames.AckSettles | backend/app/api/internal.py:185-192 | an acknowledged delivery takes its message off the queue and no other does, and only when the object is owned, gone or counted as leaked |
| Frames.AcceptWrites | backend/app/api/internal.py:160-186 | the whole write set of an accepted mail |
| Readings.DeliverySays | backend/app/services/extraction_service.py:47-172 | what a delivery adds: the mail with the message's columns and the verdict's status, and exactly for a stored financial mail a row whose fields, status, badge and fingerprint are those of the reading, without an amount of 10^11 or more |
| Readings.ReprocessSays | backend/app/api/v1/extractions.py:183-236 | when reprocessing goes through, that it writes the same of the new reading, and that it touches nothing else of row and mail |
| Ingest.ReplyMeansEffect | backend/app/api/internal.py:76-192 | rows appear exactly on accepted and object-missing, the counter moves exactly on accepted, retries and over-limit mails change no table |
| Ingest.DuplicateWithoutOriginal | backend/app/api/internal.py:94-112 | a stored copy is deleted as a duplicate of a mail never accepted if and only if the handler reaches the Message-ID check, the deletion works, a row is found and all rows found are error rows |
| Witnesses.DuplicateOfAnErrorRow | backend/app/api/internal.py:101-157 | a run from the start that loses a mail in that way |
| IngestService.EmailReceived | backend/app/api/internal.py:60-192 | the handler commits all of its outcome or nothing, a key some row owns is acknowledged and touches nothing |
| IngestService.Locked | backend/app/api/internal.py:89-186 | the ordered checks under the alias lock give exactly the outcome function |
| IngestService.StoreMail | backend/app/api/internal.py:136-186 | insert, read, persist, count and commit, with rollback on a duplicate key or a failing read |
| IngestService.DeleteOrphan | backend/app/api/internal.py:49-57 | a best-effort deletion removes the one object or nothing |
| ExtractionService.ApplyResultFields | backend/app/services/extraction_service.py:47-77 | the field mapping and its degradation of out-of-range amounts |
| ExtractionService.PersistResult | backend/app/services/extraction_service.py:101-179 | rows, statuses, flag and event of one result |
| ExtractionService.CheckAndFlag | backend/app/services/duplicate_service.py:27-65 | flags exactly when another live row of the user has the fingerprint, with one match row |
| Review.ApplySound | backend/app/services/extraction_service.py:54-77 | whatever the pipeline says, the mapped row keeps the lifecycle facts and nothing else of the row changes |
| Review.FingerprintNeedsFields | backend/app/extraction/pipeline.py:120-124 | a fingerprint means amount, date and merchant are there |
| Review.DegradedKeepsBand | backend/app/services/extraction_service.py:56-72 | a failed row carries a badge if and only if its amount was out of range |
| Review.ConfirmedWithoutAmount | backend/app/api/v1/extractions.py:153-160 | an undecided row can always be confirmed, and then lacks an amount if and only if it had failed |
| Review.FirstDecisionStands | backend/app/api/v1/extractions.py:146-191 | any undecided row can be confirmed and can be dismissed, which records its data in that row alone; later decisions and reprocessing are turned away and change nothing |
| Review.FlagPaired | backend/app/services/duplicate_service.py:56-64 | flagging keeps flag and match rows in step, with another row of the same user |
| Review.FlagOnlyFlags | backend/app/services/duplicate_service.py:28-30 | flagging never changes a status, a decision or a field |
| Review.MatchesOfWithout | backend/app/api/v1/extractions.py:222-222 | deleting a row's matches deletes exactly those |
| ExtractionsApi.ConfirmExtraction | backend/app/api/v1/extractions.py:147-161 | confirm and its replies |
| ExtractionsApi.DismissExtraction | backend/app/api/v1/extractions.py:165-179 | dismiss and its replies |
| ExtractionsApi.Refusal | backend/app/api/v1/extractions.py:189-213 | reprocessing is refused exactly when the row is decided or unknown, its raw mail is gone or the mail is no longer financial |
| ExtractionsApi.ReprocessExtraction | backend/app/api/v1/extractions.py:183-236 | reprocess: refusals in order, row, mail status, matches and flag |
| Privacy.ScheduleCompletes | backend/app/services/privacy_service.py:41-60 | all the user's aliases off, every raw mail of theirs under a deadline, existing deadlines, other users' aliases and other users' mails untouched, a second call changes nothing |
| PrivacyService.ScheduleUserDeletion | backend/app/services/privacy_service.py:30-80 | the committed tables, and two counts that are the aliases switched off and the mails that got a deadline |
| PrivacyService.PurgeBatch | backend/app/services/privacy_service.py:86-114 | pointers nulled, objects deleted and the count returned are those of the rows whose deletion went through |
| PrivacyService.Drain | backend/app/services/privacy_service.py:117-136 | with at most f failures a round, at least min(n - f, 50 * (100 - f)) are purged for every selection order, with f < 100 no early stop while a deletable mail is left, and the result counts the nulled pointers |
| PrivacyService.PickSelects | backend/app/services/privacy_service.py:125-129 | any order cut at the limit is a selection of that many distinct matches |
| PrivacyService.BatchProgress | backend/app/services/privacy_service.py:94-114 | a batch purges all but f of what it selected |
| PrivacyService.RoundCounts | backend/app/services/privacy_service.py:123-135 | each round keeps the running total and the lower bound |
| PrivacyService.CleanSweep | backend/app/services/privacy_service.py:117-136 | a failure-free sweep over at most 5000 matches leaves none and changes no other mail |
| PrivacyService.PurgeDue | backend/app/services/privacy_service.py:139-149 | only mails whose deadline has passed lose their pointer, the store loses exactly their objects, without failures and at most 5000 due none is left, with the bounds of the drain |
| PrivacyService.RetentionSweep | backend/app/services/privacy_service.py:152-163 | the same for mails older than the retention time |
| Outbox.Newest | backend/app/services/webhook_delivery_service.py:69-78 | the latest config of exactly the event's key, or of any for an unkeyed event, if there is one |
| Outbox.NewestExactly | backend/app/services/webhook_delivery_service.py:69-78 | it is the receiver if and only if it fits the event's key, or the event has none, and every other that fits is older, or as old and inserted before |
| Outbox.ReceiverFollowsOwnKey | backend/app/services/webhook_delivery_service.py:59-88 | registering a config never moves another key's events, takes over its own key's as the newest, and makes them wait instead of falling back when its secret is unreadable |
| Outbox.HandledSound | backend/app/services/webhook_delivery_service.py:120-151 | handling a due row keeps attempts, spacing, error and status consistent |
| Outbox.DeferralIsFree | backend/app/services/webhook_delivery_service.py:121-125 | a deferral costs no attempt, a POST exactly one |
| Outbox.GivenUpTakesTime | backend/app/services/webhook_delivery_service.py:26-28 | a given-up event spans the four backoffs from the start of its first batch, that batch's duration less from its end, and the last three in any case |
| Outbox.SettledStays | backend/app/services/webhook_delivery_service.py:99-102 | delivered and failed rows are never touched again |
| Outbox.PostRouted | backend/app/services/webhook_delivery_service.py:115-129 | a POST goes to the config its key had in the table read for the batch |
| Outbox.PolledIdentity | backend/app/services/webhook_delivery_service.py:120-151 | a poll rewrites only delivery fields |
| Waiting.AheadShrinks | backend/app/services/webhook_delivery_service.py:97-107 | a counted batch that misses a due row takes twenty rows out of its way |
| Waiting.EarlyBounded | backend/app/api/internal.py:159-186 | over any run from a moment after t, the events inserted that are due by t are at most twice the deliveries under way that began by t |
| Waiting.BoundedWait | backend/app/services/webhook_delivery_service.py:94-154 | from any reachable moment, with n rows due by a past t and m deliveries under way that began by t, a due row is attempted or deferred within ceil((n+2m)/20) committed batches of any number of overlapping pollers, counting those begun while no other open batch held the row; with no such delivery that is ceil(n/20) |
| Witnesses.EarlyInsertComesFirst | backend/app/services/webhook_delivery_service.py:94-107 | a run from the start in which one delivery under way inserts an event that is served first, and ceil(n/20) batches miss a due row |
| OutboxRuns.LeasesStep | backend/app/services/webhook_delivery_service.py:97-107 | every step keeps the rows of open batches due, and no row in two of them |
| DeliveryService.ProcessDue | backend/app/services/webhook_delivery_service.py:91-154 | one commit of every claimed row handled once, with the receiver looked up at its key's first row |
| DeliveryService.CacheStep | backend/app/services/webhook_delivery_service.py:113-118 | the cache always holds each key's first lookup of the batch |
| DeliveryService.DeliverRow | backend/app/services/webhook_delivery_service.py:121-151 | one row, statement by statement |
| Feedback.RulesReflectLog | backend/app/api/v1/feedback.py:49-73 | at most one rule per pattern, named after the first entry to reach three, category and count of the latest that did |
| Feedback.RuleExists | backend/app/api/v1/feedback.py:38-70 | a pattern has a rule if and only if some pair with that upper-casing was logged three times |
| Feedback.RuleBook.CategoryFeedback | backend/app/api/v1/feedback.py:26-81 | log and rules after one feedback, how often the pair stands in the log and whether a rule was created |
| Feedback.RuleBook.CountEntries | backend/app/api/v1/feedback.py:38-47 | how often the pair stands in the log |
| Workers.Email | workers/email-ingest/src/index.ts:27-87 | object before message, nothing left behind by a refusal, and the one failure that strands an object |
| Workers.RefusedExactly | workers/email-ingest/src/index.ts:28-61 | which address, edge answer and size are refused, in terms of local part and domain |
| Workers.StreamToArrayBuffer | workers/email-ingest/src/index.ts:90-106 | the buffer holds exactly the stream's bytes in order |
| Workers.FlatConcat | workers/email-ingest/src/index.ts:90-106 | chunks stand behind each other as they came |
| Workers.KeysApart | workers/email-ingest/src/index.ts:63-64 | object keys are as fresh as their ids and never clipped by the handler |
| Workers.Queue | workers/email-queue-consumer/src/index.ts:27-54 | acknowledges on success, hands back otherwise |
| Workers.SettledOneWay | workers/email-queue-consumer/src/index.ts:45-52 | a message leaves the queue if and only if its answer is a success; all others are handed back, once each and in order |
| Pipeline.Run | backend/app/extraction/pipeline.py:57-117 | an amount decides between review and failed, brings a currency, and a fingerprint exists exactly when it can |
| Pipeline.RunPipeline | backend/app/extraction/pipeline.py:30-117 | the program's order of filling the field dictionary gives that result |
| Pipeline.TemplateWins | backend/app/extraction/pipeline.py:74-91 | template fields beat general ones field by field, only an amount without currency gets the default, and the badge is high if and only if amount, merchant and date were found and the score is high |
| Fingerprint.DecodeBasis | backend/app/extraction/pipeline.py:120-128 | the basis text decodes to its four fields although the merchant may hold the delimiter |
| Fingerprint.SameBasis | backend/app/extraction/pipeline.py:127-127 | two basis texts are equal, for all fields, if and only if amount, date and the text of currency and merchant together are |
| Text.LowerSame | backend/app/extraction/pipeline.py:127-127 | lower-cased texts are equal if and only if the texts differ in case at most |
| Fingerprint.SameFields | backend/app/extraction/pipeline.py:125-128 | for all amounts, equal fingerprints if and only if equal minor units, currency, lower-cased merchant and day |
| Fingerprint.SameFingerprint | backend/app/extraction/pipeline.py:120-128 | with two decimals, equal fingerprints if and only if equal amount, currency, lower-cased merchant and day |
| Fingerprint.DelimiterInCurrencyCollides | backend/app/extraction/pipeline.py:126-127 | a currency can be confused with a proper one if and only if it holds the delimiter |
| Fingerprint.SubCentCollides | backend/app/extraction/pipeline.py:125-125 | an amount collides with a different amount of whole cents if and only if it is not whole cents itself |
| Money.CanonicalByValue | backend/app/schemas/extractions.py:15-19 | two amounts print alike if and only if they are the same number with the same zero sign |
| Money.CanonicalInverse | backend/app/schemas/extractions.py:16-19 | parsing a printed amount gives the number back |
| Money.EventMatchesDetail | backend/app/services/extraction_service.py:36-58 | an admitted amount prints alike before and after the column if and only if it has four decimals at most and is no negative zero |
| Money.OverflowsExactly | backend/app/services/extraction_service.py:39-58 | an admitted amount overflows the column if and only if it has more than four decimals and is at least 10^11 - 0.00005 |
| Money.ExtractedAmountsAgree | backend/app/extraction/general_extractor.py:35-35 | an unsigned admitted amount of at most two decimals always fits the column and prints alike |
| Money.MinorUnitsByValue | backend/app/extraction/pipeline.py:125-125 | with two decimals, minor units are equal if and only if the amounts are |
| Money.MinorUnitsNearest | backend/app/extraction/pipeline.py:125-125 | below a cent the minor units are the nearest ones, and of two as near the even ones |
| ContentLines.StripSelects | backend/app/extraction/content_preparer.py:71-88 | header stripping keeps the order and drops exactly the lines of a block under a marker |
| ContentLines.StripNormalForm | backend/app/extraction/content_preparer.py:76-88 | no blank or header line directly after a marker, idempotent, and exactly the header-free lists are fixed |
| ContentLines.StripForwardHeaders | backend/app/extraction/content_preparer.py:71-88 | the two nested loops compute that pass |
| ContentLines.UnfoldNormalForm | backend/app/extraction/content_preparer.py:94-109 | no separator and no two-cell row is left, and a second pass changes nothing |
| ContentLines.UnfoldKeepsOrder | backend/app/extraction/content_preparer.py:98-109 | no cell is lost, added or reordered |
| ContentLines.CellsInOrder | backend/app/extraction/content_preparer.py:103-103 | the cells of a row are its parts between the pipes, stripped, without the blank ones, in index order |
| Text.StripIs | backend/app/extraction/content_preparer.py:103-103 | stripping cuts whitespace off both ends and nothing else |
| ContentLines.RowUnfolds | backend/app/extraction/content_preparer.py:100-107 | a row with exactly two non-blank parts and anything to say becomes the left part above the right one |
| ContentLines.LabelAboveValue | backend/app/extraction/content_preparer.py:103-107 | the label and value case on the text itself |
| ContentLines.RowStays | backend/app/extraction/content_preparer.py:99-108 | any other line stays as it is, and a row with nothing to say goes |
| ContentLines.PrepareIdempotent | backend/app/extraction/content_preparer.py:60-64 | table unfolding followed by header stripping is idempotent |
| ContentLines.NormalizePipeTables | backend/app/extraction/content_preparer.py:94-109 | the loop computes the unfolding |
| Domains.RegisteredShape | backend/app/extraction/sender_resolver.py:57-71 | a suffix of at most three labels, never a bare two-part suffix below which a label stands |
| Domains.RegisteredLabels | backend/app/extraction/sender_resolver.py:57-71 | for a host in any case: its last two labels, the last three below a two-part suffix, or all there are |
| Domains.RegisteredIdempotent | backend/app/extraction/sender_resolver.py:57-71 | reducing twice is reducing once |
| Domains.SubdomainsKeep | backend/app/extraction/sender_resolver.py:65-70 | subdomains keep the result if and only if the host is no two-part suffix |
| Domains.ForwardsSkipped | backend/app/extraction/sender_resolver.py:81-86 | any number of leading consumer forwards leaves the scan's answer unchanged |
| Domains.ScanFrom | backend/app/extraction/sender_resolver.py:81-86 | the first host whose domain is no consumer provider, none if and only if there is none |
| Domains.Resolve | backend/app/extraction/sender_resolver.py:104-125 | the first DKIM domain before From, the body's first non-consumer sender in place of a consumer one, and a consumer answer only when the body names no other |

## Left out

- Regular expressions, MIME parsing, HTML-to-text and date parsing: their results are inputs or arbitrary predicates (`Pipeline.Reading`, `ContentLines.Patterns`, the host lists of `Domains.Resolve`).
- Domains.Resolve: stops where neither a DKIM nor a From domain is present, because the last fallback (backend/app/extraction/sender_resolver.py:127-133) calls a function that file does not define.
- Domains.RegisteredShape: is stated for hosts without inner whitespace, since trimming removes only the whitespace at the ends.
- ContentLines.PrepareIdempotent: is about line lists and the two line passes; quote stripping between them and whitespace collapsing after them are not idempotent on strings.
- Fingerprint.SameFingerprint: takes SHA-256 as injective, and asks for amounts of at most two decimals and a currency without the delimiter, which is what the extractors produce.
- Money: the decimal context's 28-digit precision is not modelled; amounts are exact.
- Case mapping and whitespace are ASCII; the upper-casing of learned rules is an arbitrary function.
- Theorems.RateHolds: bounds the configured window less the wait for the alias lock, because rows carry the start time of their transaction.
- Witnesses.RateWindowIsExact: is stated for limits below 10^512; keys have at most 512 characters, so a limit beyond all keys is never reached.
- Theorems.OwnersKeepObjects: assumes deliveries of one key do not overlap, or the repaired lookup; the unguarded claim is false.
- Waiting.BoundedWait: does not count batches begun while another open batch held the row; a poller that holds rows and never ends holds them for ever. Equal creation times of two configs resolve to the later insert.
- PrivacyService.Drain: treats a sweep as running alone on the mails; `World` interleaves object deletions, their commits and crashes with everything else, and `Deletion.DrainIsASweep` connects the two.
- ExtractionService.CheckAndFlag: answers from committed rows. Handlers for two aliases of one user hold different locks, so in the program two equal purchases arriving at once may each miss the other's uncommitted row and both stay unflagged; `World` takes handlers one after the other.
- Mails without a parsed received_at are never due for retention, as in the program; the bucket's own lifecycle rule is the step that lets any object expire.
- Concurrent feedback on one pattern: each request is one atomic step.
- Confirm, dismiss and reprocess take no row lock in the program; they are atomic steps here.
- Alias addresses arrive lower-cased at the handler, as the edge worker sends them.
- Audit log, classification rows, snippets, confidence numbers, extraction method and direction flags, and the sender, subject and domain columns.
- Over-long merchant or header columns other than the key and the Message-ID: a database error there is the generic fault of a delivery.
- Signatures, encryption, API keys, secrets, request validation, statistics, pagination, the sender registry and the merchant templates.
- The bytes of a stored object beyond their copy from the stream; the system knows objects by their keys.
