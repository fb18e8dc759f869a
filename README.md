# Bulk e-mail campaigns: dispatch, campaign lifecycle and list ingestion

This project models the core of a bulk e-mail campaign service and proves
properties of the model. It has three parts.

- **The dispatch pass** (`processPendingEmails`). The pass reads or creates
  today's quota row. It selects the oldest pending send tasks of active
  campaigns, capped by the batch size and the remaining quota. For each task
  it renders the template with the recipient's variables, picks the bodies,
  calls the transport and records the outcome:
  - the task's status;
  - the campaign's `sent_count` or `failed_count`;
  - the quota counter.

  The pass ends with a sweep that completes every finished active campaign.
- **The campaign lifecycle.**
  - `createCampaign` inserts a draft campaign.
  - `startCampaign` fans a draft out into one pending task per valid,
    subscribed contact of its list, using a parameterised multi-row INSERT,
    and then activates it.
  - `pauseCampaign` and `resumeCampaign` overwrite the status.
  - Start and resume then call `processAllPendingEmails`, which the scheduler
    module does not export. The call throws after the writes, so both
    handlers answer 500 (see "## Findings").
- **Contact-list ingestion.**
  - The address check.
  - The TXT line handler and the CSV row handler, which accept or reject
    entries and count them.
  - The insertion of accepted contacts in chunks of 500, followed by the list
    statistics.
  - The pagination arithmetic of the contacts listing.

The database is the class `Schema.Database`, with one field per table. Its
`Snapshot()` is the value `Schema.Tables`. Contacts and send tasks are
sequences in insertion order, and the row at index `k` has the serial id
`k + 1`. The operations that change the database are methods. Each method is
proved equal to a specification function on `Tables`:
- `Dispatch.Pass`;
- `CampaignController.CreateCampaignSpec`, `StartCampaignSpec`, `WithStatus` and
  `ResumeCampaignSpec`;
- `ListController.ProcessContactsSpec`.

The lemmas state what the source promises about those functions. The shared
invariant is `Schema.Consistent`:
- campaign ids lie below the next serial id;
- every task belongs to an existing campaign;
- every campaign's `sent_count` and `failed_count` equal the number of its
  tasks that are `sent` and `failed`.

Every operation that writes the tables is proved to keep this invariant.
List ingestion is included: it leaves campaigns and tasks as they were.

Inputs the code takes from its surroundings become parameters:
- the SMTP transport is a function from (call number, message) to delivered
  or rejected-with-reason;
- `CURRENT_DATE` and `CURRENT_TIMESTAMP` are parameters;
- `DAILY_EMAIL_LIMIT` and `BATCH_SIZE` are the `Config` after `parseInt`;
- a storage error is an optional `Fault` saying before which batch row
  (dispatch) or which chunk (ingestion) it is thrown;
- the lines and rows of an uploaded file are sequences handed in already split.

Behaviour worth noting:
- `sendEmail` attaches the HTML when the text body is empty and the HTML is
  not (services/emailSender.js:41);
- `replaceVariables` rescans text substituted for an earlier key when it
  replaces a later key (services/emailSender.js:22-25);
- list statuses are `processing`, `completed` and `failed`
  (controllers/listController.js:155, 174);
- pause and resume answer the same whether the campaign exists or not
  (controllers/campaignController.js:165-168, 181-184).

## Model

| member | source | states |
|---|---|---|
| Js.OrDefault | services/emailSender.js:82 | `parseInt(x) \|\| d`: the parsed number when it is a number other than 0, the default when parsing gave NaN or 0 |
| Js.Min | services/emailSender.js:105-108 | `Math.min`: the result is at most both arguments and is one of them |
| Js.TrimIsSlice | controllers/listController.js:84 | `trim()` drops a run of whitespace at each end and keeps the middle unchanged |
| Js.TrimEmptyIffBlank | controllers/listController.js:84-86 | a trimmed line is empty exactly when every character of it is whitespace |
| Js.ToLower | controllers/listController.js:108 | lowercasing keeps the length and lowercases each character |
| Js.ToLowerIsLower | controllers/listController.js:108 | the result is lower-case, and a lower-case string is left as it is |
| Js.Split | services/emailSender.js:148-149 | at least one part; the whole string when the separator is absent; otherwise the first part is the text before the first separator |
| Js.SplitJoin | services/emailSender.js:148-149 | joining the parts of a split with the separator gives the string back |
| Js.JoinSplit | services/emailSender.js:148-149 | splitting the join of separator-free parts gives the parts back |
| Js.SplitPiecesFree | services/emailSender.js:148-149 | no part of a split contains the separator |
| TemplateRender.ReplaceVariables | services/emailSender.js:20-27 | the loop that reassigns `result` once per key computes `Render`: each key's placeholder is replaced in key order, over the previous output |
| TemplateRender.ReplaceWithoutMatch | services/emailSender.js:23-24 | content in which the placeholder never occurs is returned unchanged |
| TemplateRender.RenderWithoutPlaceholders | services/emailSender.js:20-27 | content containing no key's placeholder is returned unchanged |
| TemplateRender.ReplaceSkipsPrefix | services/emailSender.js:23-24 | a prefix in which no match starts is copied verbatim and replacement continues after it |
| TemplateRender.ReplaceFillsOneKey | services/emailSender.js:23-24 | in a template of brace-free text and `{{name}}` holes, replacing `{{k}}` fills exactly the holes named `k` with the value, or `''` for a falsy one, and leaves other holes verbatim |
| TemplateRender.RenderFillsPlaceholders | services/emailSender.js:20-27 | for a template whose literal text has no `{` and brace-free values, every hole named by a key gets that key's value (or `''` when falsy) and holes of other names stay verbatim |
| TemplateRender.RenderIdempotent | services/emailSender.js:20-27 | for a template whose literal text has no `{` and brace-free values, rendering a rendered template again changes nothing |
| TemplateRender.RenderRescansEarlierValues | services/emailSender.js:22-25 | a value inserted for an earlier key that contains a later key's placeholder is replaced again; one inserted for a later key is not |
| EmailShape.ValidEmailMatchesPattern | controllers/listController.js:6 | the check accepts exactly the strings the pattern describes: three non-empty runs free of whitespace and `@`, separated by one `@` and a later `.` |
| EmailShape.ValidEmailIgnoresCase | controllers/listController.js:6 | lowercasing does not change whether an address is accepted |
| EmailShape.ValidEmailIsTrimmed | controllers/listController.js:6 | an accepted address is non-empty and has no surrounding whitespace |
| Schema.ContactById | services/emailSender.js:140-144 | lookup by serial id finds a row exactly for ids 1 to n, and then the row at index `id - 1` |
| Sql.Placeholder | controllers/campaignController.js:131-135 | `$p` reads parameter `p`, which exists exactly when `1 <= p <= \|params\|` |
| Sql.ThreesAreDisjoint | controllers/campaignController.js:126-128 | tuple `i` names parameters `3i+1`, `3i+2`, `3i+3`, all within `3n`, and two different tuples name no common parameter |
| MessageCompose.StripTagsLeavesNoTag | services/emailSender.js:33 | after stripping, no `<` is followed anywhere later by a `>` |
| MessageCompose.StripTagsKeepsTagless | services/emailSender.js:33 | text without a complete tag is left unchanged |
| MessageCompose.StripTagsIdempotent | services/emailSender.js:33 | stripping twice is the same as stripping once |
| MessageCompose.StripTagsKeepsOnlyInputChars | services/emailSender.js:33 | every character of the result occurs in the input |
| MessageCompose.StripTagsDropsTag | services/emailSender.js:33 | a `<`-free prefix is kept and the tag `<t>` after it (with `t` free of `>`) is removed |
| MessageCompose.MailOptions | services/emailSender.js:33-42 | a non-empty text is the text body and no HTML is attached; with empty text the body is the HTML with tags stripped (no complete tag left) and the HTML is attached exactly when it is non-empty |
| MessageCompose.RecipientVars | services/emailSender.js:138-151 | keys `email`, `nome`, `empresa`; without a contact the task's address and two empty strings; with one, the contact's address and its name when it has one |
| MessageCompose.RecipientVarsOfValidAddress | services/emailSender.js:146-150 | for a valid address, `nome` falls back to the text before the `@`, and `empresa` is the `.`-free prefix of the domain that a `.` follows |
| MessageCompose.MergeLookup | services/emailSender.js:156 | in `{ ...templateVariables, ...contactInfo }` each key has the contact's value when the contact has one, else the template's |
| MessageCompose.Merge | services/emailSender.js:156 | the template's keys come first, in their own order |
| MessageCompose.ComposeMessage | services/emailSender.js:157-168 | the message is addressed to the task's own address, not the contact's |
| MessageCompose.ExampleVars | services/emailSender.js:146-150 | for `jo@ac.io` stored without a name, `nome` is `jo` and `empresa` is `ac` |
| MessageCompose.HtmlFallbackExample | services/emailSender.js:155-168 | a template whose only body is `<b>{{nome}}</b>` sends the text `jo` and attaches the rendered HTML |
| Dispatch.BatchIndices | services/emailSender.js:110-118 | at most `limit` tasks, each pending and of an active campaign, in increasing creation order |
| Dispatch.BatchIsOldestFirst | services/emailSender.js:110-118 | an eligible task left out means the batch is full and every selected task is older |
| Dispatch.SelectBatch | services/emailSender.js:110-118 | one row per selected task, carrying its address, campaign, contact and the campaign's template id |
| Dispatch.TemplateById | services/emailSender.js:126-133 | a template is found exactly when the campaign has a template id that exists |
| Dispatch.MarkSent | services/emailSender.js:47-52 | only task `k` changes: it becomes sent with the timestamp |
| Dispatch.MarkFailed | services/emailSender.js:59-64 | only task `k` changes: it becomes failed with the reason and one more attempt |
| Dispatch.BumpSent | services/emailSender.js:174-177 | only the campaign's `sent_count` goes up by one |
| Dispatch.BumpFailed | services/emailSender.js:189-192 | only the campaign's `failed_count` goes up by one |
| Dispatch.StepBookkeeping | services/emailSender.js:124-193 | a row without a template changes nothing. Otherwise there is one transport call: delivery marks the task sent and bumps the campaign's sent counter and today's quota; rejection marks it failed and bumps the failed counter, with the quota unchanged. No other task changes |
| Dispatch.RecordKeepsConsistent | services/emailSender.js:170-193 | recording the outcome of a pending task of the row's campaign keeps the counters in step with the tasks |
| Dispatch.StepKeepsConsistent | services/emailSender.js:124-193 | handling a row of a pending task keeps the tables consistent |
| Dispatch.StepShape | services/emailSender.js:124-197 | one iteration makes at most one counted call, grows today's quota by the deliveries, and changes no other task or day |
| Dispatch.StepsFrame | services/emailSender.js:124-197 | through the loop the tables keep their shape and a task no row names is untouched |
| Dispatch.StepsCount | services/emailSender.js:120-197 | `sent` counts the deliveries, `sent + failed` the transport calls (at most one per row), and today's quota grows by `sent` |
| Dispatch.StepsSettle | services/emailSender.js:124-197 | over distinct pending rows, each row with a template settles its task and each row without one leaves its task as it was |
| Dispatch.StepsTouchOnlyRows | services/emailSender.js:124-197 | over distinct pending rows, a task that changes is one of the rows and goes from pending to sent or failed |
| Dispatch.StepsKeepConsistent | services/emailSender.js:124-197 | the loop over distinct pending rows keeps the tables consistent |
| Dispatch.QuotaRow | services/emailSender.js:81-94 | the pass uses today's stored row when there is one; otherwise one with nothing sent and the configured limit (4000 by default) |
| Dispatch.BatchLimit | services/emailSender.js:105-108 | the batch size never exceeds the remaining quota |
| Dispatch.PassIndices | services/emailSender.js:97-118 | a non-empty selection has at most `min(batch size, remaining)` tasks, all pending tasks of active campaigns, in creation order |
| Dispatch.SweepCompletesFinished | services/emailSender.js:199-205 | after the sweep no active campaign is finished; a finished active campaign becomes completed with the timestamp; any other campaign is unchanged; a second sweep changes nothing |
| Dispatch.PassWhenQuotaReached | services/emailSender.js:97-102 | with no quota left the pass reports `quota_reached` with zero counts, makes no call and changes no task or campaign; today's row exists afterwards |
| Dispatch.PassRespectsQuota | services/emailSender.js:74-184 | today's row keeps its limit and grows by exactly the deliveries; a pass that delivers anything, or starts within the limit, never leaves `emails_sent` above the limit; other days are untouched |
| Dispatch.PassTouchesOnlyBatch | services/emailSender.js:105-197 | a task that changes was selected and goes from pending to sent or failed, so a task leaves pending at most once |
| Dispatch.PassKeepsConsistent | services/emailSender.js:71-207 | a pass keeps every campaign's counters in step with its tasks |
| Dispatch.SweepKeepsConsistent | services/emailSender.js:199-205 | the sweep leaves every counter as it was |
| Dispatch.PassReportsAttempts | services/emailSender.js:120-207 | a pass that completes reports `sent` as the deliveries and `sent + failed` as the transport calls (at most the batch); it settles every selected task whose template exists and leaves no finished campaign active |
| Dispatch.PassErrorDiscardsCounts | services/emailSender.js:208-211 | a thrown error reports zero counts and the message, while deliveries made before it stay counted in today's quota; a negative batch size fails before any call, leaving only today's quota row |
| Dispatch.PassSkipsMissingTemplate | services/emailSender.js:131-133 | a task whose campaign has no template is left exactly as it was |
| Dispatch.DailyLimitNotRead | services/emailSender.js:105-118 | whatever the campaigns' stored `daily_limit`, the pass has the same remaining quota and batch limit and selects the same rows |
| Dispatch.SendEmail | services/emailSender.js:30-68 | builds the options of `MailOptions`, sends them once, and marks only the task sent or failed; no other table changes |
| Dispatch.HandleRow | services/emailSender.js:124-197 | one loop iteration on the database is exactly `Step` |
| Dispatch.RunBatch | services/emailSender.js:120-197 | the loop on the database is exactly `Steps` over the rows up to the fault |
| Dispatch.ProcessPendingEmails | services/emailSender.js:71-212 | the tables, result and transport calls are exactly those of `Pass` |
| CampaignController.NewCampaign | controllers/campaignController.js:20-25 | the new row is a draft with zero counters, no start or completion time, the given recipient total and the daily limit defaulting to 4000 |
| CampaignController.CreateCampaignOutcome | controllers/campaignController.js:9-25 | an unknown list gives 404 and changes nothing. Otherwise a fresh id holds a draft whose total is the list's `valid_count`, whose daily limit defaults to 4000 and whose counters are zero. Every other table and campaign is unchanged and the tables stay consistent |
| CampaignController.CreateCampaign | controllers/campaignController.js:4-32 | the handler on the database is exactly `CreateCampaignSpec` |
| CampaignController.RecipientsBelow | controllers/campaignController.js:113-117 | the recipients are valid, subscribed contacts of the list, with their addresses, in increasing id order (a choice of the model: the query has no ORDER BY) |
| CampaignController.RecipientsComplete | controllers/campaignController.js:113-117 | every valid, subscribed contact of the list is among the recipients |
| CampaignController.BuildTaskInsert | controllers/campaignController.js:120-129 | tuple `i` names `$(3i+1)..$(3i+3)` and the parameters are (campaign id, contact id, address) per recipient, `3n` in all |
| CampaignController.InsertBindsRecipients | controllers/campaignController.js:125-135 | binding the parameters yields exactly one pending task per recipient, in order |
| CampaignController.StartCampaignOutcome | controllers/campaignController.js:91-157 | 404 for an unknown id, 400 unless draft, and no change in either case. A draft keeps every existing task, gets its recipients' tasks appended, and becomes active with its start time. The reply is then the trigger's: 500 as written, 200 with the trigger exported. Other campaigns, contacts, lists, templates, quota and the next campaign id are unchanged |
| CampaignController.NewTasksAreForRecipients | controllers/campaignController.js:113-139 | each new task is a pending, untried task of the campaign for a valid, subscribed contact of its list, with that contact's address |
| CampaignController.NewTasksCoverRecipients | controllers/campaignController.js:113-139 | every eligible contact gets a task |
| CampaignController.NewTasksOncePerContact | controllers/campaignController.js:113-139 | no contact gets two tasks |
| CampaignController.StartCampaignKeepsConsistent | controllers/campaignController.js:91-147 | starting keeps the tables consistent: the new tasks are pending, so the counters stay in step |
| CampaignController.StartAndResumeFailAsWritten | controllers/campaignController.js:150-157 | as written, start answers 500 exactly for a draft, which is nonetheless active with its tasks inserted; resume always answers 500, with the campaign active again |
| CampaignController.StartAndResumeSucceedWhenExported | controllers/campaignController.js:91-159 | with the trigger exported, start never answers 500 and answers 200 exactly when it activated a draft; resume answers 200 |
| CampaignController.StartCampaign | controllers/campaignController.js:91-159 | the handler on the database is exactly `StartCampaignSpec` with the import as written, so it answers 500 after starting a draft |
| CampaignController.WithStatusOverwrites | controllers/campaignController.js:165-184 | the status is overwritten from any prior status, with counters and tasks untouched; an unknown id changes nothing; the tables stay consistent |
| CampaignController.PauseCampaign | controllers/campaignController.js:161-175 | the handler sets the status to paused, changes nothing else and answers 200 |
| CampaignController.ResumeCampaign | controllers/campaignController.js:177-195 | the handler sets the status to active and nothing else, then answers 500 because the trigger call throws |
| ListController.TxtLineSkipsOnlyBlank | controllers/listController.js:84-86 | a line is skipped, and counted neither way, exactly when it is blank |
| ListController.TxtLineWellFormed | controllers/listController.js:83-116 | an accepted line yields a valid, lower-case address |
| ListController.PairCandidate | controllers/listController.js:94-104 | for a line `a,b` followed by any further fields: the trimmed `a` is the address when valid, with the trimmed `b` as name; else the trimmed `b` when valid, with the trimmed `a` as name; else the whole line with no name. Fields past the second are ignored |
| ListController.TxtEmailThenName | controllers/listController.js:83-116 | `email,name` (blanks around the fields allowed, further fields ignored) is accepted with the trimmed, lowercased address and the trimmed name |
| ListController.TxtNameThenEmail | controllers/listController.js:83-116 | `name,email` whose first field is not an address is accepted with the trimmed, lowercased address and the trimmed name |
| ListController.TxtBareAddress | controllers/listController.js:83-116 | a line holding just an address is accepted with no name |
| ListController.TxtWholeLineFallback | controllers/listController.js:94-106 | `a@b,c.d`, whose parts are both invalid, is accepted as a whole-line address |
| ListController.TxtFields | controllers/listController.js:90-104 | the assignments to `email` and `name` compute the candidate of the trimmed line |
| ListController.FirstFilled | controllers/listController.js:56-57 | the first non-empty column in priority order, or empty when every column is missing or empty |
| ListController.CsvEmptyGuardRedundant | controllers/listController.js:59 | the `email &&` test adds nothing: an empty value never passes the pattern |
| ListController.CsvRowWellFormed | controllers/listController.js:55-68 | every row counts one way or the other; an accepted row has a valid lower-case address and a trimmed name |
| ListController.CsvLowercaseColumnWins | controllers/listController.js:56-61 | a non-empty `email` column decides the row: it is accepted exactly when its trimmed value is valid, and stored trimmed and lowercased |
| ListController.CsvMissingEmailRejected | controllers/listController.js:56-67 | a row with no non-empty `email`, `Email` or `EMAIL` column is invalid |
| ListController.CsvRowsAllCounted | controllers/listController.js:55-68 | `validCount + invalidCount` counts every CSV row |
| ListController.AbsorbKeepsValid | controllers/listController.js:59-67 | counting an entry keeps `validCount` equal to the number of contacts, all valid and lower-case |
| ListController.AbsorbAllTallies | controllers/listController.js:55-116 | over a file the contacts grow by the accepted entries in order and the two counters by the counted ones |
| ListController.IngestTallies | controllers/listController.js:42-123 | a `.csv` name counts every row; any other counts every non-blank line; `validCount` equals the number of contacts |
| ListController.Ingestion.Record | controllers/listController.js:106-115 | pushes an accepted contact and bumps `validCount`, or bumps `invalidCount` |
| ListController.Ingestion.OnTxtLine | controllers/listController.js:83-116 | the line handler updates the state by the line's decision |
| ListController.Ingestion.OnCsvRow | controllers/listController.js:55-69 | the row handler updates the state by the row's decision |
| ListController.Ingestion.OnCsvFields | controllers/listController.js:59-68 | accept on a valid trimmed address, else reject |
| ListController.Ingestion.ReadTxt | controllers/listController.js:78-118 | reading every line gives the tally of all their decisions in order |
| ListController.Ingestion.ReadCsv | controllers/listController.js:53-70 | reading every row gives the tally of all their decisions in order |
| ListController.ChunkAt | controllers/listController.js:129-130 | chunk `c` is the slice from `500c` to `min(500c + 500, n)` |
| ListController.ChunkCount | controllers/listController.js:128-130 | there are `ceil(n / 500)` chunks |
| ListController.ChunkSizes | controllers/listController.js:128-130 | every chunk is non-empty with at most 500 contacts, and all but the last have exactly 500 |
| ListController.ChunksFlatten | controllers/listController.js:128-149 | the chunks put back together are the contacts, each once, in order |
| ListController.FlattenChunksPrefix | controllers/listController.js:129-149 | the first `c` chunks are the first `min(500c, n)` contacts |
| ListController.BuildContactInsert | controllers/listController.js:133-141 | tuple `i` names `$(3i+1)..$(3i+3)`; the parameters are (list id, address, name) per contact, `3n` in all |
| ListController.ContactInsertBinds | controllers/listController.js:137-148 | binding the parameters stores exactly the batch's contacts, in order, as valid rows of the list |
| ListController.InsertChunk | controllers/listController.js:143-148 | one INSERT appends the batch's contact rows and changes nothing else |
| ListController.UpdateListStats | controllers/listController.js:152-158 | the final update writes the counts and marks the list completed |
| ListController.HandleError | controllers/listController.js:170-180 | an error marks the list failed |
| ListController.ProcessContactsKeepsConsistent | controllers/listController.js:125-180 | storing an upload leaves campaigns, tasks, templates and quota unchanged, and keeps the tables consistent |
| ListController.ProcessContactsOutcome | controllers/listController.js:125-167 | without a fault all contacts are inserted and the stats recorded; a fault at chunk `c` leaves the first `500c` contacts inserted and the list failed |
| ListController.ProcessFileStats | controllers/listController.js:151-158 | without a fault the list ends completed, with `valid_count` equal to the contacts inserted and `total_count = valid + invalid`; each inserted row is a valid address of the list |
| ListController.ProcessContacts | controllers/listController.js:125-168 | the chunk loop on the database is exactly `ProcessContactsSpec` |
| ListController.ProcessFile | controllers/listController.js:42-182 | reading the file and processing its contacts is exactly `ProcessContactsSpec` of the file's tally |
| ListController.CeilDivIsCeiling | controllers/listController.js:255 | `totalPages` is the fewest pages of `limit` rows that hold every row |
| ListController.PaginateAnswers | controllers/listController.js:231-255 | page and limit default to 1 and 50; the query fails exactly when the limit is negative or the page is below 1; otherwise `offset = (page - 1) * limit` and `totalPages` is the ceiling |
| ListController.PageOfRow | controllers/listController.js:231-255 | every position `k < total` of the ordered result lies on a page between 1 and `totalPages`, inside that page's offset window |
| ListController.PagesDisjoint | controllers/listController.js:233 | the offset windows of two different pages share no position |

## Left out

- HTTP plumbing is not modelled: request parsing, responses, status codes
  beyond the replies the handlers choose (201, 200, 404, 400 and the 500 of
  the trigger call), routes, server start-up and the auth middleware.
- `uploadList` is not modelled: it creates the list row and then starts
  `processFile`; the model starts at `processFile` on an existing list.
- The pass that `processAllPendingEmails` would start after start and resume
  (controllers/campaignController.js:150, 187) is not modelled. As written
  the name is undefined and the call throws (see "## Findings"). With it
  exported, the pass would run in the background, concurrently with later
  requests. The scheduler is a timer calling one pass.
- The nodemailer transport is an oracle parameter. Message ids, the `from`
  header and the SMTP settings are not modelled.
- The 100 ms delay between messages is left out; it only affects timing.
- `CURRENT_DATE` and `CURRENT_TIMESTAMP` are parameters; a pass that spans
  midnight is not modelled.
- File streaming, `readline`, the csv-parser tokenisation and
  `fs.unlinkSync` are not modelled; the handlers receive lines and rows
  already split.
- Stream errors are not modelled separately. A stream `error` event leads
  to the same `handleError` as the modelled storage fault.
- Only one storage failure is modelled for each of the two flows: a fault
  that aborts the pass or the chunk loop. Failures of the status update
  inside `handleError` and of the quota or counter updates are not
  modelled separately.
- Regular-expression and replacement-pattern quirks of `replaceVariables`
  are not modelled: keys are plain names, and a `$` in a value is literal.
- `JSON.parse` of a template's variables is not modelled; they are an
  ordered list of key/value pairs.
- `toLowerCase` is modelled on ASCII letters only; other Unicode case
  mappings are not modelled.
- A missing CSV column and an empty one are both the empty string.
- getListContacts: only the pagination arithmetic is modelled, not the rows
  the query returns or their `created_at DESC` order. `PageOfRow` and
  `PagesDisjoint` speak of positions in the result order. Contacts inserted
  by one multi-row INSERT share a `created_at`, and the order among them is
  not fixed, so requests for different pages may repeat or skip such a
  contact.
- CampaignController.RecipientsBelow: the recipients query
  (controllers/campaignController.js:113-116) has no ORDER BY, so the source
  fixes neither the recipients' order nor the order of the tasks inserted
  for them. The model takes increasing contact id, which therefore also
  fixes the dispatch order of one campaign's tasks.
- Batch order: tasks are ordered by insertion, which stands in for
  `created_at`. Ties within one multi-row INSERT keep their insertion order.
- Concurrency is not modelled: neither between scheduler ticks and HTTP
  handlers, nor between two passes.
- Dispatch.PassRespectsQuota: a quota row that already holds more sent mail
  than its limit (possible only if it was edited outside the pass) is
  reported as quota-reached. The bound is stated for passes that start
  within the limit or deliver anything.
- CampaignController.CreateCampaignOutcome: the fresh-id and consistency
  parts assume the tables are consistent, which every modelled operation
  preserves. The code relies on the SERIAL column for a fresh id.
- MessageCompose.ComposeMessage: its own contract states only the
  addressee. The bodies it produces are stated through `MailOptions`,
  `RecipientVarsOfValidAddress`, `MergeLookup`, `RenderFillsPlaceholders`
  and the worked example.

## Findings

| source | as written | input that shows it | evidently intended | confidence | as-written member | corrected member |
|---|---|---|---|---|---|---|
| controllers/campaignController.js:2 | imports `processAllPendingEmails` from the scheduler module, which exports only `startScheduler` (services/scheduler.js:23); the calls at :150 and :187 throw a TypeError inside the `try`, and the handlers answer 500 after their writes are done | starting any draft campaign: it becomes active with its tasks inserted, and the reply is 500 "Failed to start campaign"; resuming any campaign likewise answers 500 | the trigger is exported, a pass runs in the background and the handlers answer 200 | high; not executed | CampaignController.StartAndResumeFailAsWritten | CampaignController.StartAndResumeSucceedWhenExported |
