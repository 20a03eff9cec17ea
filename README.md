# Plan credits, applications and notification logs of a job board

This project models the core of a job-board backend (Express controllers
over a MongoDB store). It covers these parts:

- the **credit ledger** of subscription plans: applying for a job spends one
  application credit of the first eligible plan, and withdrawing within ten
  minutes gives it back;
- the **application lifecycle**: apply, withdraw, the shortlist transition,
  the seen flag and the counting readers;
- **free-job posting**: required-field validation, then one of the plan's
  `free_jobs` is spent;
- the **notification-log lifecycle**: logs are written with every recipient
  unread, one recipient's entry is marked read, and the candidate and
  employer feeds filter the logs by type and unread state;
- the **interview writes**, which each append a notification log.

The store is the value `Ledger.Db`. Its plans, applications and
notification logs are sequences in the store's enumeration order; its paid
jobs, free jobs, users and interviews are maps keyed by identifier. Every
controller operation that writes is a method. It takes the store and
returns the HTTP status it answers with, together with the store it leaves
behind. Readers are functions. The count readers return a `Reply` (status and body); `ValidateIds` returns only the status.
Loops stay loops where the controller loops: plan selection, the
required-field check and the search for an e-mail entry.

These things are parameters of the model:

- the current time `now`, in milliseconds;
- the identifiers the store generates for new documents;
- `ObjectId.isValid`, as the predicate `isValid`.

Plan counters are `Option<int>`. `None` stands for a missing or NaN counter,
which JavaScript treats as falsy, compares false with any number, and leaves
NaN under `+= 1` and `-= 1`.

The model keeps two behaviours of the code as written. First, `applyForJob`
stores the application without `plan_id`. Second, a refund inside the window
is refused with 400, and the application kept, when the plan's counter is
at or below zero. Both lead to findings (below). Module `Findings` holds
the corrected definitions and proves that, with them, a withdrawal inside
the window undoes the apply exactly.

Files: `ledger.dfy` (documents, counters, generic first-match / count /
filter queries), `applied_jobs.dfy`, `free_jobs.dfy`, `notification_logs.dfy`,
`interviews.dfy`, `findings.dfy`.

## Model

| member | source | states |
|---|---|---|
| Ledger.Debit | controllers/appliedJobController.js:466-470 | spending a credit moves exactly the counter of the job's class down by one (an unset counter stays unset) and leaves every other field of the plan, the other counters included, unchanged |
| Ledger.Refund | controllers/appliedJobController.js:388-392 | a refund moves exactly the counter of the job's class up by one and leaves every other field unchanged |
| Ledger.RefundUndoesDebit | controllers/appliedJobController.js:388-392 | refunding the class just debited restores the plan exactly |
| AppliedJobs.ApplyForJob | controllers/appliedJobController.js:410-472 | the guards are checked in the source's order: missing ids 400, invalid ids 400, no plans 400, job in neither collection 404, existing (user, post) application 400, no eligible plan 400; every failure leaves the store unchanged; a job counts as paid when the paid collection has it and as free only when only the free collection does; the plan charged is the first of the user's plans, in store order, active at `now` (both ends inclusive) with a positive balance for the job's class (a missing counter counts as 0); it answers 200 exactly when all guards pass, and then appends one application for the pair with no plan recorded and debits that one plan |
| AppliedJobs.ApplySpendsOneCredit | controllers/appliedJobController.js:443-470 | the debit of an eligible plan changes no other plan, moves only the counter of the job's class, down by exactly one, and leaves it at or above zero |
| AppliedJobs.ApplyKeepsPairsUnique | controllers/appliedJobController.js:437-464 | appending an application for a pair that has none keeps (user, post) pairs unique |
| AppliedJobs.DeleteAppliedJob | controllers/appliedJobController.js:341-398 | missing ids or no application 400 with nothing changed; no plan recorded: the application is removed and no plan changes; the recorded plan is missing: 404 and the application is kept; more than 600000 ms after applying: removed with no refund; inside the window, with the job classified paid-then-free: job missing 404, relevant counter at or below zero 400, both with nothing changed; otherwise that counter goes up by one and the application is removed |
| AppliedJobs.UpdateJobStatus | controllers/appliedJobController.js:606-624 | invalid id 400, unknown application 404, `approve` sets status 1, `disapprove` sets -1, any other action 400, with only that one record changing |
| AppliedJobs.UpdateSeenStatus | controllers/appliedJobController.js:317-330 | missing post id 400; no application for the post 404; otherwise exactly the first application for the post becomes seen and nothing else changes |
| AppliedJobs.RepeatUpdateSeenStatus | controllers/appliedJobController.js:317-330 | marking seen twice answers the same and leaves the same store as marking once |
| AppliedJobs.ValidateIds | controllers/appliedJobController.js:209-221 | missing ids 400; otherwise 200 exactly when some application has that user and post, else 404 |
| AppliedJobs.AppliedJobsCount | controllers/appliedJobController.js:187-198 | missing user 400; otherwise 200 with the number of applications whose user is the given one (the size of the set of their positions), which is zero exactly when the user has none |
| AppliedJobs.ApplicationCountByUser | controllers/appliedJobController.js:68-82 | missing user 400; 404 exactly when the user has no application; 200 carries the number of the user's applications, positive and equal to the count of getAppliedJobsCount |
| AppliedJobs.ApplicationCountByPost | controllers/appliedJobController.js:766-778 | missing post 400; 404 exactly when the post has no application; 200 carries the number of applications to the post, positive and at most the number of applications |
| AppliedJobs.ShortlistedCount | controllers/appliedJobController.js:736-756 | missing employer 400; 404 exactly when the employer has no paid job, whatever free jobs they have; 200 carries the number of applications with status 1 to the employer's paid jobs |
| AppliedJobs.ApplyCountsOnce | controllers/appliedJobController.js:464 | a successful apply raises the applicant's count, as getAppliedJobsCount answers it, and the post's count by exactly one, and no other user's count |
| AppliedJobs.WithdrawCountsOnce | controllers/appliedJobController.js:397 | a withdrawal lowers the user's application count and the pair's count by exactly one |
| AppliedJobs.ApproveRaisesShortlisted | controllers/appliedJobController.js:616-617 | approving a not-yet-shortlisted application to one of the employer's posts raises the shortlisted count by one; approving again changes nothing |
| FreeJobs.FirstMissing | controllers/freeJobController.js:22-35 | the field reported is a required field that is absent or falsy (`undefined`, `null`, `false`, `0`, `''`) and every field before it in the required order is truthy; none is reported exactly when every required field is truthy |
| FreeJobs.FirstMissingField | controllers/freeJobController.js:31-35 | the loop over the required fields returns exactly the first missing one |
| FreeJobs.PostFreeJob | controllers/freeJobController.js:22-55 | the first missing field gives 400 naming it; a `plan_id` that names no plan gives 400; `free_jobs <= 0` gives 400; every failure stores nothing; success answers 201 with the free job stored and the plan's `free_jobs` decremented |
| FreeJobs.PostSpendsOneFreeJob | controllers/freeJobController.js:50-55 | a successful post adds exactly one free job (for a fresh identifier) and keeps every other; of all plans only the chosen plan's `free_jobs` changes, down by one, staying at or above zero; applications, paid jobs and logs are unchanged |
| NotificationLogs.MarkRead | controllers/notificationLogController.js:148 | the chosen entry becomes read with its address kept; every other entry and every other field of the log is unchanged |
| NotificationLogs.UpdateNotificationReadStatus | controllers/notificationLogController.js:125-149 | missing e-mail 400, checked before the id format (invalid id 400); unknown log 404; address not among the entries 404; every failure leaves the store unchanged; otherwise only the first entry with that address becomes read |
| NotificationLogs.RepeatUpdateNotificationReadStatus | controllers/notificationLogController.js:138-149 | marking read twice answers the same and leaves the same store as marking once |
| NotificationLogs.CandidateNotifications | controllers/notificationLogController.js:58-92 | invalid id 400, unknown user 404; otherwise `jobs` holds exactly the job ids of `job` logs selected for the user's address and `interviews` exactly the notes of selected interview-type logs; other types appear in neither; the list lengths equal the numbers of such logs |
| NotificationLogs.ListedAppend | controllers/notificationLogController.js:69-92 | appending a log to the store extends a feed list at its end by that log when it qualifies and leaves the list unchanged otherwise, so feed order follows store order |
| NotificationLogs.CandidateFeedAppend | controllers/notificationLogController.js:69-92 | an appended log lands at the end of the candidate's `jobs` or `interviews` list according to its type, when it is selected for the candidate's address |
| NotificationLogs.SelectionAfterRead | controllers/notificationLogController.js:69-72 | the candidate query matches the address and the unread flag on possibly different entries: after one entry is marked read the log stays selected exactly when some other entry is still unread |
| NotificationLogs.AppliedNotes | controllers/notificationLogController.js:184-203 | the notes are exactly the applications whose user and job are both found, one per such application |
| NotificationLogs.EmployerNotifications | controllers/notificationLogController.js:166-234 | invalid id 400; otherwise the jobs are exactly the employer's paid and free jobs; the application notes come exactly from unseen applications to those jobs whose user is found, one per application; the interview notes come exactly from logs naming the employer, of an interview type, with some entry unread |
| NotificationLogs.EmployerFeedAppend | controllers/notificationLogController.js:206-222 | an appended log lands at the end of the employer's interview list when it qualifies; the other parts of the feed do not change |
| NotificationLogs.SeenLeavesEmployerFeed | controllers/notificationLogController.js:179-182 | marking an application seen shortens the employer's application list by one exactly when it was listed, and changes nothing else in the feed |
| Interviews.NewNotificationLog | controllers/interviewController.js:30-39 | the log carries its recipients, job, interview and type, and one entry per e-mail address in the same order, every one unread (the schema default of models/notficationLogModel.js:31) |
| Interviews.NewLogReachesRecipients | controllers/interviewController.js:30-39 | a fresh log is selected for every recipient address, and a fresh interview-type log with a recipient matches the employer query of every addressed user |
| Interviews.MeetingLogReachesParticipants | controllers/interviewController.js:62-68 | the log of a meeting is selected for both participants' addresses and, for an interview type, matches both participants' employer query |
| Interviews.CreateInterview | controllers/interviewController.js:49-95 | job missing from both collections (paid first) 404; candidate or employer missing 404, in both cases nothing saved; when the job and both users exist the answer is 201, with the interview saved under a fresh identifier and one `interview` log appended, with recipients `[userId, employeeId]` and addresses `[user.email, employee.email]` |
| Interviews.UpdateInterview | controllers/interviewController.js:110-135 | unknown interview 404 with nothing changed; participants missing 404 with the update already applied and no log; otherwise 200 with the update and one `interviewUpdated` log appended; earlier logs are kept |
| Interviews.DeleteInterview | controllers/interviewController.js:148-168 | unknown interview 404 with nothing changed; otherwise 200 with the interview removed; an `interviewCancelled` log is appended only when both participants are found |
| Interviews.MeetingLogExtendsFeeds | controllers/interviewController.js:62-68 | an interview-type meeting log is appended at the end of both participants' candidate-feed and employer-feed interview lists |
| Findings.ApplyThenWithdraw | controllers/appliedJobController.js:464 | as written: right after a successful apply a withdrawal answers 200 and removes the application, yet the plans keep the debit, at any elapsed time |
| Findings.ApplyForJobLinked | controllers/appliedJobController.js:464 | apply with the paying plan recorded on the application; it answers 200 exactly when all guards pass, 404 exactly when the ids are given and valid, the user has a plan and the job is in neither collection, and 400 otherwise; success stores the application with that plan's id and applies the same debit |
| Findings.LinkedApplication | controllers/appliedJobController.js:464 | the linked record is the as-written record with the paying plan's id added |
| Findings.WithdrawAfterLastCredit | controllers/appliedJobController.js:382-386 | as written, even with the plan recorded: when the application spent the plan's last credit, a withdrawal inside the window is refused with 400 and the store stays as the apply left it |
| Findings.DeleteAppliedJobRefunding | controllers/appliedJobController.js:341-398 | withdrawal whose refund is always granted inside the window; every other branch is the as-written one |
| Findings.ApplyThenWithdrawLinked | controllers/appliedJobController.js:341-472 | corrected: with the plan recorded and the refund granted, a withdrawal inside the window restores the store exactly; after the window the application is removed and the credit stays spent |

## Left out

- E-mail (nodemailer) and push messages (Firebase): third-party I/O that never changes the store; they are not modelled.
- Mongoose casting errors, storage failures and the 500 answers they lead to: the store is a value, and every `await` succeeds.
- Two paths where an unset counter leads to such an error. Saving a NaN counter fails the cast, so the source answers 500 after the refund of controllers/appliedJobController.js:389-394 and keeps the application. It also answers 500 at controllers/freeJobController.js:54-55, after the free job is already saved. The model answers 200 and 201 on these paths, with the counter left unset. The casting rules belong to Mongoose and are not part of this model.
- Concurrency: the model is sequential, so two simultaneous applies spending the same credit are not modelled.
- `Date` construction and `toLocaleString` formatting: timestamps are integer milliseconds, and `now` is a parameter.
- Fractional and NaN counter values other than an unset counter, and non-string `plan_id` values other than "names no plan".
- `populate`, `select` and the display fields they add (`jobTitle`, the `'N/A'` defaults), and the response messages: a feed carries the referenced identifiers themselves.
- `populate` turns a reference to a missing document into `null`, and the model does not. Every `interviewCancelled` note therefore shows no interview in the source, because the interview is deleted at controllers/interviewController.js:148 before the log is written at :159. A log's `jobId` refers to the paid collection (models/notficationLogModel.js:11), so a free job's `jobId` also shows as `null`. The model keeps the identifier in both cases.
- NotificationLogs.EmployerNotifications: the `jobs` part is the set of the employer's job identifiers, not the paid-then-free list of documents.
- NotificationLogs.CandidateNotifications and NotificationLogs.EmployerNotifications: the `messages` part reads a message collection, which is not part of this model.
- FreeJobs.PostFreeJob, AppliedJobs.ApplyForJob and Interviews.CreateInterview, UpdateInterview and DeleteInterview require the generated identifiers to be unused, as the store guarantees for the ids it generates.
- Interviews.UpdateInterview: `meetDetails` and `interviewTimestamp` are always given; an update body that omits them is not modelled.
- The display readers without counting logic (getApplicationUsingPostId, getApplicationUsingUserId, getJobsByUserId, getAllAppliedJobs, getAllAppliedJobsWithDetails, getAppliedJobsById, getShortlistedCandidates, getAllNotificationLogs, getInterviewById) and the commented-out updateJobsStatus.
- The application schema is not part of this model: new applications are assumed to be created unseen, with status 0 and the creation time.
- Mongoose keeps fields that the free-job schema does not declare out of the stored document; the model stores the posted fields as they are.
- The experience and interview schemas carry no behaviour and are not modelled.

## Findings

| source | as written | input that shows it | evidently intended | confidence | as-written member | corrected member |
|---|---|---|---|---|---|---|
| controllers/appliedJobController.js:464 | the application is created without `plan_id`, so a later withdrawal takes the "no plan" branch and never refunds | a user with one active plan holding `apply_paid_jobs: 3` applies to a paid job and withdraws one minute later: the answer is 200, the application is gone and the plan holds 2 | the plan that paid is recorded, so a withdrawal inside the window gives the credit back | not executed | Findings.ApplyThenWithdraw | Findings.ApplyThenWithdrawLinked |
| controllers/appliedJobController.js:382-386 | a refund is refused when the relevant counter is at or below zero, which is the state left by spending the last credit | a plan with `apply_paid_jobs: 1` pays for an application that records it; withdrawing it one minute later answers 400, the application stays and the plan holds 0 | the guard is not there; the refund is granted inside the window | not executed | Findings.WithdrawAfterLastCredit | Findings.ApplyThenWithdrawLinked |
