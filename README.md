# Task manager core, modelled in Dafny

This project models the core of a small Django task manager. Each user owns
tasks. A task has a title, a description, a priority, a status and two flags,
`completed` and `deleted`. A task is *active* when neither flag is set. The
model covers:

- the create and update views, with their priority cascade. The cascade scans
  upward from the requested priority for the first value no active task of the
  user holds, then moves the user's active tasks in that block up by one;
- the title check of the task form, which rejects short titles and upper-cases
  the rest;
- the `add-task` view, which stores an ownerless task as given;
- soft delete and completion;
- the active-task listing, with search, the completed-task listing and the
  all-tasks page;
- the session view counter;
- the report-time form;
- the before-save hook that logs status changes;
- the periodic jobs: the daily per-user task summary, with its scheduling rule
  and the state it updates, and the pending-task reminder;
- the data model: statuses, defaults and record texts.

The files and what each holds:

- `wrappers.dfy`: `Option` and `Result`.
- `strings.dfy`: decimal text, upper-casing and case-insensitive search.
- `models.dfy`: the rows of the schema.
- `signals.dfy`: the hook, and the invariant the history keeps.
- `priority.dfy`: the cascade as functions and the scan loop as a method.
- `store.dfy`: the task and history tables as a class.
  - `Save` runs the hook and then writes the row.
  - The bulk `.update()` calls write rows without running the hook.
- `listing.dfy`: the list views.
- `reports.dfy`: the periodic jobs.
- `views.dfy`: the view methods and the properties of create and update.

Conventions:

- A table is a map from task id to row.
- Instants are integers in seconds. The time of day is the instant modulo 86400.
- Sending an e-mail is an output event: a `Mail` value in a returned sequence.
- The current time is a parameter.

## Model

| member | source | states |
|---|---|---|
| Models.ParseStatus | tasks/models.py:8-13 | a name reads back as the status whose stored name it is; a name no status has is rejected |
| Models.ParseStatusName | tasks/models.py:8-13 | every one of the four statuses reads back from its stored name |
| Models.StatusNameChars | tasks/models.py:8-13 | stored status names are non-empty and made of capitals and underscores |
| Models.DefaultTask | tasks/models.py:15-23 | a new task is active, ownerless, at priority 1 with status PENDING, and carries the given title, description and creation time |
| Models.StatusChangeTextRoundTrip | tasks/models.py:45-46 | the text `Task {id} : {old} -> {new}` of a status-change record determines the task id and both statuses |
| Models.StatusChangeText | tasks/models.py:45-46 | the text of a status-change record begins with `Task ` and ends with the new status's stored name |
| Models.ParseTransitionRoundTrip | tasks/models.py:46 | the `{old} -> {new}` part of the text reads back as the two statuses |
| Models.DefaultReportConfig | tasks/models.py:48-51 | a new report configuration is at 22:00 and has never been sent |
| Strings.ParseNatToString | tasks/models.py:46 | the decimal text of a number reads back as that number |
| Strings.NatToString | tasks/tasks.py:20 | decimal text is non-empty digits with no leading zero |
| Strings.UpperIdempotent | tasks/views.py:85 | upper-casing twice is upper-casing once |
| Strings.FoldUpper | tasks/views.py:85 | upper-casing does not change what a case-insensitive match sees |
| Strings.UpperContainsOriginal | tasks/views.py:152 | an upper-cased title contains, ignoring case, the text it was made from |
| Signals.HookRecords | tasks/signals.py:5-12 | the hook appends at most one record; it appends one exactly when the saved instance is already stored with a different status, and that record names the task, the stored status as old and the incoming status as new |
| Signals.SecondSaveRecordsNothing | tasks/signals.py:8-11 | saving again with the status just written records nothing, so the double save in the views logs at most one change |
| Signals.SaveKeepsConsistent | tasks/signals.py:5-12 | a save through the hook keeps the history consistent with the table: every record is a real transition of a stored task, a task's records chain, and its last record ends in its current status |
| Signals.SameStatusKeepsConsistent | tasks/views.py:71 | a bulk update that changes no status keeps the history consistent without recording anything |
| Priority.FirstFree | tasks/views.py:129-134 | the first value at or above `p` held by no active task of the user; every value between `p` and it is held |
| Priority.ScanForGap | tasks/views.py:129-134 | the scan loop ends, at the first free value at or above `p`, after at most as many steps as the user has active tasks |
| Priority.GapBound | tasks/views.py:129-134 | the gap lies at most the number of the user's active tasks above `p` |
| Priority.FirstFreeIsLeast | tasks/views.py:129-134 | a free value with every value from `p` up to it held is the first free value |
| Priority.Bumped | tasks/views.py:135 | the bulk priority update keeps the set of rows |
| Priority.Cascade | tasks/views.py:128-135 | the cascade keeps the set of rows, changes no row other than the user's active tasks, and changes nothing at all when `p` is free |
| Priority.CascadeEffect | tasks/views.py:128-135 | an active task of the user in the block from `p` up to the gap moves up by one; every other row, including all tasks at or above the gap, the user's deleted or completed tasks and other users' tasks, is unchanged; nothing moves when `p` is free |
| Priority.GapInRangeIsHarmless | tasks/views.py:116 | including the gap value in the updated range changes nothing, and the gap lies above `p` when `p` is held |
| Priority.CascadeKeepsAllButPriority | tasks/views.py:135 | the cascade changes priorities only |
| Priority.CascadeFreesTarget | tasks/views.py:128-135 | after the cascade no active task of the user holds `p` |
| Priority.CascadeKeepsDistinct | tasks/views.py:128-135 | the cascade keeps every user's active priorities pairwise distinct |
| Store.TaskDb.Save | tasks/views.py:136-138 | a save writes the row under its key, or under a fresh id for a new instance, and extends the history by exactly what the hook records |
| Store.TaskDb.OnPreSave | tasks/signals.py:5-12 | the `pre_save` receiver extends the history by exactly the hook's records for the stored table and changes nothing else |
| Store.TaskDb.BumpPriorities | tasks/views.py:135 | the bulk update writes the bumped table and keeps the history consistent |
| Store.TaskDb.MarkDeleted | tasks/views.py:71 | the bulk soft delete writes the table with that one row deleted and keeps the history consistent |
| Store.TaskDb.MarkCompleted | tasks/views.py:240 | the bulk completion writes the table with that one row completed and keeps the history consistent |
| Store.WithDeleted | tasks/views.py:71 | the soft delete sets `deleted` on the targeted row only, and changes no other field and no other row |
| Store.WithCompleted | tasks/views.py:240 | completion sets `completed` on the targeted row only, and changes no other field and no other row |
| Store.RetiringKeepsDistinct | tasks/views.py:69-72 | deleting or completing a task keeps active priorities distinct |
| Listing.Least | tasks/views.py:150 | every non-empty set of stored ids holds one that comes no later in list order than any other |
| Listing.OrderedIds | tasks/views.py:150 | the ids of a set in priority order, each once |
| Listing.ActiveListing | tasks/views.py:148-153 | the listing holds exactly the user's active tasks whose title matches the search ignoring case (every task when there is no search term, or an empty one), each once, by ascending priority |
| Listing.AllTasksContext | tasks/views.py:210-221 | the all-tasks page lists each of the user's non-deleted tasks once, active ones first and by priority within each group; its active list is the listing; its completed list holds each of the user's completed tasks once, deleted ones included, by priority; `all_count` is the number of non-deleted tasks and `completed_count` the number of completed non-deleted ones |
| Listing.ByPriority | tasks/views.py:217 | a list in `order_by('priority')` order has non-decreasing priorities |
| Listing.CompletedListing | tasks/views.py:229-231 | the completed-task page lists each of the user's completed, non-deleted tasks once, by priority; it has as many entries as the all-tasks page's `completed_count` |
| Listing.CountSplit | tasks/views.py:219-220 | the user's non-deleted tasks split into active ones and completed ones |
| Listing.SetOfListing | tasks/views.py:219-220 | a duplicate-free listing has as many entries as the set it lists |
| Listing.CreatedTitleIsFound | tasks/views.py:85 | a task whose title was upper-cased by the form is found by searching for the title as typed |
| Listing.RetiredTaskIsNotListed | tasks/views.py:150 | a deleted or completed task is not listed |
| Reports.NotDueWithinADayOfSend | tasks/tasks.py:31 | a configuration sent at `t` is due again only after `t` plus one day |
| Reports.Due | tasks/tasks.py:31 | a due configuration was never sent or last sent before now; with instants in whole seconds, one set to 23:59:59 is never due, because the time of day must be strictly past it |
| Reports.SummaryOrderIsByName | tasks/tasks.py:32 | the summary visits each status once, in ascending order of stored name |
| Reports.AppendLines | tasks/tasks.py:34-35 | the loop appends exactly the summary lines of the statuses with tasks, in order |
| Reports.BuildSummary | tasks/tasks.py:33-35 | the mail body is the greeting followed by one `{status} : {count}` line per status present |
| Reports.SummaryBodyLines | tasks/tasks.py:32-35 | the body is the greeting followed by the lines of the four statuses in the order the grouped query returns them |
| Reports.SummaryBody | tasks/tasks.py:33-35 | the body begins with the greeting `Hi {username}` and the summary heading |
| Reports.CountTotalIsCardinality | tasks/tasks.py:32 | the per-status counts add up to the number of the user's non-deleted tasks with those statuses |
| Reports.SummaryCountsCoverTasks | tasks/tasks.py:32-35 | the counts in a summary add up to the number of the user's non-deleted tasks |
| Reports.PendingCountIsListingLength | tasks/tasks.py:19-20 | the pending count is the length of the user's active-task listing |
| Reports.ReminderRoundTrip | tasks/tasks.py:20 | the reminder text `You have N pending tasks.` determines N |
| Reports.ReminderText | tasks/tasks.py:20 | the reminder begins with `You have ` and ends with ` pending tasks.` |
| Reports.SendEmailReminder | tasks/tasks.py:16-22 | one reminder per user, in user order, to that user's address and with that user's count |
| Reports.SummaryRun | tasks/tasks.py:25-42 | a run keeps one row per configuration and produces as many notifications as mails and addresses |
| Reports.RunStep | tasks/tasks.py:31-40 | one iteration adds exactly one row, with the configuration's user and time; it adds at most one notification, with exactly as many mails and addresses; after a failure it adds no notification or mail |
| Reports.RunShape | tasks/tasks.py:36-40 | each row keeps its user and time; each mail has the summary subject and sender and goes to the address collected with it; each notification holds its mail's body and the job's instant `now` |
| Reports.StepShape | tasks/tasks.py:36-40 | one step of the job keeps those facts: the new mail and the new notification carry the same body, and the mail goes to the address collected |
| Reports.RunConfigs | tasks/tasks.py:29-40 | a due configuration reached before any failure is stamped with the current time; every other configuration is unchanged; the job fails exactly when some due configuration has no user |
| Reports.StepSummaries | tasks/tasks.py:33-38 | one step keeps every notification tied to a due configuration, with that configuration's user, address and summary |
| Reports.RunSummaries | tasks/tasks.py:29-40 | every notification of a run, and the mail sent with it, belongs to the user of a due configuration: the notification is owned by that user, the mail goes to that user's address, and both hold that user's own summary |
| Reports.RunNotifiesDue | tasks/tasks.py:29-40 | a run that completes creates exactly one notification per due configuration with a user, owned by that user and holding that user's summary, in iteration order |
| Reports.RunSendsToDue | tasks/tasks.py:27-42 | a run that completes returns the addresses of the due configurations' users, in iteration order |
| Reports.RunAfterFailure | tasks/tasks.py:29-33 | once a run has failed, the remaining configurations stay as they are and nothing more is sent |
| Reports.SecondRunSendsNothing | tasks/tasks.py:31-40 | running the job again at the same instant sends nothing |
| Reports.ReportStore.Deliver | tasks/tasks.py:32-40 | for a due configuration with a user, the row is stamped with the current time, one notification with the summary body is added and the mail with that body goes to the user's address |
| Reports.SendTaskSummary | tasks/tasks.py:25-42 | the job's loop leaves the configurations, notifications and mails of the run, and returns the addresses, or nothing when it fails |
| Views.CleanTitle | tasks/views.py:81-85 | a title is accepted exactly when it has at least five characters; an accepted title comes back upper-cased, of the same length (under the ASCII case mapping) and equal to the input ignoring case; a rejected one gives "Data too small" |
| Views.CleanTitleIdempotent | tasks/views.py:81-85 | cleaning an accepted title again accepts it unchanged |
| Views.FormInstance | tasks/views.py:136 | the instance built on create has the posted fields, the model defaults, no owner and the creation time |
| Views.CreateResult | tasks/views.py:127-139 | after a create the table holds the old ids plus the new one; the new row is the posted instance owned by the user; rows other than the user's active tasks are unchanged |
| Views.CreateWhenTargetFree | tasks/views.py:128-138 | when the requested priority is free no stored task moves, and the new task is stored for the user at that priority |
| Views.CreateWhenTargetTaken | tasks/views.py:128-138 | when the requested priority is taken the gap lies above it, exactly the user's active tasks in the block move up by one, and the new task takes the requested priority |
| Views.CreateKeepsDistinct | tasks/views.py:127-139 | a create keeps every user's active priorities distinct |
| Views.PlaceKeepsDistinct | tasks/views.py:117-119 | writing a task at a priority no other active task of the user holds keeps priorities distinct |
| Views.Edited | tasks/views.py:117 | `form.save()` writes the posted fields over the loaded object and keeps its other fields |
| Views.Visible | tasks/views.py:17 | a task is visible to the user exactly when it is among the user's non-deleted tasks |
| Views.UpdateResult | tasks/views.py:108-119 | the update keeps the set of rows; the edited row holds the posted fields and belongs to the user; rows other than the user's active tasks are unchanged, and no other row changes when the priority is kept |
| Views.UpdateEffect | tasks/views.py:108-119 | the edited task ends at exactly the posted priority although the scan counted it and the bulk update may have moved it; the other rows move only when the priority changed, and only in the block |
| Views.UpdateWithoutPriorityChange | tasks/views.py:109 | an update that keeps the priority moves no other task |
| Views.UpdateKeepsDistinct | tasks/views.py:108-119 | an update keeps active priorities distinct, except when it reactivates a completed task without changing its priority |
| Views.ReactivatingUpdateCollides | tasks/views.py:109-119 | a concrete update that reactivates a completed task leaves two active tasks at the same priority |
| Views.CorrectedUpdateKeepsDistinct | tasks/views.py:108-119 | with the cascade also run on reactivation, every update keeps active priorities distinct |
| Views.CorrectedUpdateResult | tasks/views.py:108-119 | the corrected update keeps the set of rows, writes the edited row for the user, changes only the user's active tasks besides it, and equals the update as written on every form that does not reactivate the task |
| Views.CorrectedUpdateAgrees | tasks/views.py:108-119 | the corrected update agrees with the code on every form that does not reactivate a task at its old priority |
| Views.UpdateCascadeWithGap | tasks/views.py:108-119 | with tasks at 1, 2 and 4, moving the second to 1 puts the first at 2 and the second at 1, and leaves the third at 4 |
| Views.CreateTaskView | tasks/views.py:127-139 | the create view rejects a short title and changes nothing; otherwise it stores the cleaned form under a fresh id after the cascade, and records no status change |
| Views.UpdateTaskView | tasks/views.py:102-120 | a task the user cannot see gives a 404; a short title gives the form again; otherwise the table is the update result and the history gains the hook's record for the first save |
| Views.AddTaskView | tasks/views.py:179-182 | the `add-task` view stores the given title unchecked, with the defaults and no owner, under a fresh id, moves no other task and records no status change; without the parameter the save fails and nothing changes |
| Views.OwnerlessAddIsInvisible | tasks/views.py:179-182 | a task stored without an owner changes no user's active tasks, keeps their priorities distinct and is in no listing |
| Views.DeleteTaskView | tasks/views.py:64-72 | a visible task is soft-deleted and nothing else changes; otherwise 404 |
| Views.CompleteTaskView | tasks/views.py:234-241 | `GenericTaskCompleteView`, the unrouted alternative: a visible task is marked completed and nothing else changes; otherwise 404 |
| Views.CompleteUpdateTaskView | tasks/views.py:244-253 | the view behind the `complete-task` route: whatever is posted, a visible task ends completed with no status change recorded; otherwise 404 |
| Views.ViewsSoFar | tasks/views.py:60 | the stored view count, or 0 when none is stored |
| Views.SessionStorageView | tasks/views.py:59-62 | the view shows the count so far and stores it plus one |
| Views.SessionTwice | tasks/views.py:59-62 | two requests in a fresh session show 0 and then 1 |
| Views.FirstConfigOf | tasks/views.py:277-279 | the position of the first configuration of the user, or none when the user has none |
| Views.SavedReport | tasks/views.py:271-279 | after the report form the user's first configuration holds the posted time; a row is appended only when the user had none; other users' rows are kept |
| Views.SavedReportKeepsOnePerUser | tasks/views.py:271-279 | saving the report form leaves exactly one configuration for the user, with the posted time, keeps at most one per user, and leaves other users' configurations as they were |
| Views.ReportUpdateView | tasks/views.py:271-279 | the report form updates the user's first configuration, or adds one for the user |

## Left out

- HTTP routing, templates, pagination, redirects beyond the response kind, login and sign-up forms, and widget styling. These belong to the framework.
- The login requirement. Every view is modelled for a logged-in user.
- The REST API, the admin registration and the migrations.
- `send_mail`, `print` and the Celery scheduling. A mail is an output value.
- `select_for_update`, `transaction.atomic` and concurrent requests. Each request and each job run is one sequential step. The cascade has no transaction, so a concurrent request could interleave; this is not modelled.
- Time zones, sub-second resolution and `datetime` arithmetic. Instants are whole seconds and a day is 86400 seconds.
- Reports.Due: the clause that a configuration at 23:59:59 is never due holds only for whole-second instants. The job runs every second (tasks/tasks.py:24), and `timezone.now().time()` carries microseconds (tasks/tasks.py:26, 31). So the source does send for 23:59:59 during the day's last second, from 23:59:59.000001 on.
- Reports.RunShape: every clock read within one request or one job run is modelled as the single instant `now`. In the source, the `auto_now` stamp `Notification.timestamp` (tasks/models.py:58) is taken when the notification is saved at tasks/tasks.py:38, after `send_mail`, so it is really a little later than the job's `currentTime`.
- Signals.HookRecords: for the same reason, a record's `TaskStatusChange.timestamp` (tasks/models.py:42, `auto_now`) is the request's `now`, while the source stamps it when the hook saves the record.
- Case mapping beyond ASCII. `upper()` and `icontains` are modelled on ASCII letters only.
- Views.CleanTitle: the length clause holds only for the ASCII case mapping. Python's `str.upper()` can lengthen a title, as `'straße'.upper() == 'STRASSE'` shows, so the source does not keep the length for every title.
- The form's field-level validation: required fields, whitespace stripping and the `max_length` of 100 on titles. Only `clean_title` is modelled.
- Column widths. The database's 100-character limit on titles and statuses and its 1024-character limit on notification contents are not checked. So the model does not capture a summary notification too long for its column, which a database enforcing the width would reject in the save at tasks/tasks.py:38.
- `__str__` of `Task`, `ReportConfig` and `Notification`. Only the status-change text is modelled.
- The unused `__old_status` snapshot and the commented-out `save` override in `Task`.
- The unrouted views. These are the class-based `CreateTaskView` and `TaskView` (tasks/views.py:155-170) and the function views `tasks_view`, `delete_task_view`, `complete_task_view`, `complete_list_view` and `all_tasks_view`. No URL reaches them. `CreateTaskView.post` saves like Views.AddTaskView, and `TaskView` lists every user's active tasks.
- The routed `add-task` view with a title the database would refuse, such as one longer than 100 characters. Views.AddTaskView stores any given title.
- `GenericTaskDetailView`. It only displays a task.
- Listing.ActiveListing: tasks with equal priorities may appear in any order. The database's tie-breaking order is not modelled.
- Reports.SummaryRun: the configurations are taken in the order given, and every configuration's user is assumed to be a known account. The foreign key guarantees the latter.
- Priority.Bumped: priorities are unbounded naturals. The database column (`PositiveIntegerField`, tasks/models.py:22) has a maximum. At that maximum, the bump `F('priority') + 1` fails, and so does a posted priority above it. The model lets every cascade succeed.
- Store.TaskDb.BumpPriorities: the same bound is not modelled, so the bulk update never fails.
- Views.UpdateTaskView: `'priority' in form.changed_data` is modelled as the posted priority differing from the stored one.
- The user's identity in the session text is the user's string form, passed in as a parameter.

## Findings

| source | as written | input that shows it | evidently intended | confidence | as-written member | corrected member |
|---|---|---|---|---|---|---|
| tasks/views.py:109-119 | the update view runs the cascade only when the priority field changed | task A is active at priority 1; task B of the same user is completed at priority 1; B is updated with priority 1 and `completed` unchecked; A and B both end active at priority 1 | the cascade also runs when the update makes a completed task active again, so active priorities stay distinct | not executed | Views.ReactivatingUpdateCollides | Views.CorrectedUpdateKeepsDistinct |

`Views.UpdateTaskView` models the code as written. `Views.UpdateKeepsDistinct`
states the property for every update outside the failing case, and
`Views.CorrectedUpdateResult` is the corrected update.
