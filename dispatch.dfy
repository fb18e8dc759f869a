/** One dispatch pass of services/emailSender.js (`processPendingEmails`):
    read or create today's quota row, select the oldest pending tasks of
    active campaigns up to the smaller of the batch size and the remaining
    quota, send each through the transport and record the outcome on the
    task, its campaign and the quota row, then mark finished campaigns
    completed.

    The pass is specified by the function `Pass` over a snapshot of the
    tables; the method `ProcessPendingEmails` performs it on a `Database`
    in place and is proved to produce exactly `Pass`'s tables, result and
    sequence of transport calls. The transport is an oracle: the outcome of
    the `n`-th call of the pass for a message is `transport(n, message)`.
    A storage error is modelled as a `Fault` raised before the batch row
    with index `at` (or before the sweep when `at` is past the batch). */
module Dispatch {
  import opened Js
  import opened TemplateRender
  import opened Schema
  import opened MessageCompose

  /** Used when DAILY_EMAIL_LIMIT is absent, not a number or 0. */
  const DefaultDailyLimit := 4000
  /** Used when BATCH_SIZE is absent, not a number or 0. */
  const DefaultBatchSize := 50
  /** What the database answers to a negative `LIMIT`. */
  const NegativeLimitError := "LIMIT must not be negative"

  /** The environment settings the pass reads, each after `parseInt`. */
  datatype Config = Config(dailyEmailLimit: Option<int>, batchSize: Option<int>)

  /** What the transport did with one message. */
  datatype SendOutcome = Delivered | Rejected(reason: string)

  /** One call of the transport. */
  datatype Attempt = Attempt(message: Message, outcome: SendOutcome)

  type Transport = (nat, Message) -> SendOutcome

  /** A storage error thrown before batch row `at` is handled. */
  datatype Fault = Fault(at: nat, message: string)

  /** `{ sent, failed, quota_reached }`, or `{ sent: 0, failed: 0, error }`. */
  datatype PassResult = PassResult(sent: nat, failed: nat, quotaReached: bool, error: Option<string>)

  /** A row of the batch query: the task (by its index in the tasks table),
      its address, campaign and contact, and the campaign's template. */
  datatype SelectedRow = SelectedRow(index: nat, email: string, campaignId: nat, contactId: Option<nat>, templateId: Option<nat>)

  /** The tables and the local counters part-way through the loop, with
      every transport call made so far. */
  datatype PassState = PassState(tables: Tables, sent: nat, failed: nat, log: seq<Attempt>)

  /** The tables after a pass, its result, and the transport calls it made. */
  datatype PassOutcome = PassOutcome(tables: Tables, result: PassResult, log: seq<Attempt>)

  // ---------------------------------------------------------------------
  // Batch selection

  /** The join and filter of the batch query: a pending task whose campaign
      exists and is active. */
  predicate Eligible(tasks: seq<SendTask>, campaigns: map<nat, Campaign>, k: nat)
    requires k < |tasks|
  {
    && tasks[k].status == Pending
    && tasks[k].campaignId in campaigns
    && campaigns[tasks[k].campaignId].status == Active
  }

  /** The eligible tasks among the first `n`, oldest first. */
  function EligibleBelow(tasks: seq<SendTask>, campaigns: map<nat, Campaign>, n: nat): (ks: seq<nat>)
    requires n <= |tasks|
    ensures forall j :: 0 <= j < |ks| ==> ks[j] < n && Eligible(tasks, campaigns, ks[j])
    ensures forall j, j' :: 0 <= j < j' < |ks| ==> ks[j] < ks[j']
    ensures forall k :: 0 <= k < n && Eligible(tasks, campaigns, k) ==> k in ks
  {
    if n == 0 then []
    else EligibleBelow(tasks, campaigns, n - 1) + (if Eligible(tasks, campaigns, n - 1) then [n - 1] else [])
  }

  /** `ORDER BY created_at ASC LIMIT limit` over the eligible tasks. */
  function BatchIndices(tasks: seq<SendTask>, campaigns: map<nat, Campaign>, limit: nat): (ks: seq<nat>)
    ensures |ks| <= limit
    ensures forall j :: 0 <= j < |ks| ==> ks[j] < |tasks| && Eligible(tasks, campaigns, ks[j])
    ensures forall j, j' :: 0 <= j < j' < |ks| ==> ks[j] < ks[j']
  {
    var all := EligibleBelow(tasks, campaigns, |tasks|);
    if |all| <= limit then all else all[..limit]
  }

  /** Oldest first: an eligible task left out of the batch comes after every
      task in it, and the batch is full. */
  lemma BatchIsOldestFirst(tasks: seq<SendTask>, campaigns: map<nat, Campaign>, limit: nat, k: nat)
    requires k < |tasks| && Eligible(tasks, campaigns, k)
    requires k !in BatchIndices(tasks, campaigns, limit)
    ensures |BatchIndices(tasks, campaigns, limit)| == limit
    ensures forall j :: 0 <= j < limit ==> BatchIndices(tasks, campaigns, limit)[j] < k
  {
    var all := EligibleBelow(tasks, campaigns, |tasks|);
    assert k in all;
    var p :| 0 <= p < |all| && all[p] == k;
    assert |all| > limit;
    assert BatchIndices(tasks, campaigns, limit) == all[..limit];
    assert forall j :: 0 <= j < limit ==> all[..limit][j] == all[j];
    assert p >= limit;
  }

  function RowOf(tasks: seq<SendTask>, campaigns: map<nat, Campaign>, k: nat): SelectedRow
    requires k < |tasks| && tasks[k].campaignId in campaigns
  {
    SelectedRow(k, tasks[k].email, tasks[k].campaignId, tasks[k].contactId, campaigns[tasks[k].campaignId].templateId)
  }

  /** The rows the batch query returns. */
  function SelectBatch(tasks: seq<SendTask>, campaigns: map<nat, Campaign>, limit: nat): (rows: seq<SelectedRow>)
    ensures |rows| == |BatchIndices(tasks, campaigns, limit)|
    ensures forall j :: 0 <= j < |rows| ==> rows[j] == RowOf(tasks, campaigns, BatchIndices(tasks, campaigns, limit)[j])
  {
    var ks := BatchIndices(tasks, campaigns, limit);
    seq(|ks|, j requires 0 <= j < |ks| => RowOf(tasks, campaigns, ks[j]))
  }

  // ---------------------------------------------------------------------
  // One task

  /** `SELECT * FROM templates WHERE id = $1`; a null template id matches
      nothing. */
  function TemplateById(templates: map<nat, Template>, id: Option<nat>): (r: Option<Template>)
    ensures r.Some? <==> id.Some? && id.value in templates
    ensures r.Some? ==> r.value == templates[id.value]
  {
    if id.Some? && id.value in templates then Some(templates[id.value]) else None
  }

  /** The contact looked up when the task has a (truthy) contact id. */
  function ContactOf(contacts: seq<ListContact>, contactId: Option<nat>): (r: Option<ContactRow>)
    ensures r.Some? ==> contactId.Some? && 1 <= contactId.value <= |contacts|
  {
    if contactId.Some? && contactId.value != 0 then
      match ContactById(contacts, contactId.value)
      case Some(c) => Some(ContactRow(c.email, c.name))
      case None => None
    else None
  }

  /** `SET status = 'sent', sent_at = CURRENT_TIMESTAMP WHERE id = ...`. */
  function MarkSent(tasks: seq<SendTask>, k: nat, now: Time): (r: seq<SendTask>)
    ensures |r| == |tasks|
    ensures forall i :: 0 <= i < |tasks| && i != k ==> r[i] == tasks[i]
    ensures k < |tasks| ==> r[k] == tasks[k].(status := Sent, sentAt := Some(now))
  {
    if k < |tasks| then tasks[k := tasks[k].(status := Sent, sentAt := Some(now))] else tasks
  }

  /** `SET status = 'failed', error_message = ..., attempts = attempts + 1`. */
  function MarkFailed(tasks: seq<SendTask>, k: nat, reason: string): (r: seq<SendTask>)
    ensures |r| == |tasks|
    ensures forall i :: 0 <= i < |tasks| && i != k ==> r[i] == tasks[i]
    ensures k < |tasks| ==> r[k] == tasks[k].(status := Failed, errorMessage := Some(reason), attempts := tasks[k].attempts + 1)
  {
    if k < |tasks| then tasks[k := tasks[k].(status := Failed, errorMessage := Some(reason), attempts := tasks[k].attempts + 1)]
    else tasks
  }

  function BumpSent(campaigns: map<nat, Campaign>, cid: nat): (r: map<nat, Campaign>)
    ensures r.Keys == campaigns.Keys
    ensures forall c :: c in campaigns && c != cid ==> r[c] == campaigns[c]
    ensures cid in campaigns ==> r[cid] == campaigns[cid].(sentCount := campaigns[cid].sentCount + 1)
  {
    if cid in campaigns then campaigns[cid := campaigns[cid].(sentCount := campaigns[cid].sentCount + 1)] else campaigns
  }

  function BumpFailed(campaigns: map<nat, Campaign>, cid: nat): (r: map<nat, Campaign>)
    ensures r.Keys == campaigns.Keys
    ensures forall c :: c in campaigns && c != cid ==> r[c] == campaigns[c]
    ensures cid in campaigns ==> r[cid] == campaigns[cid].(failedCount := campaigns[cid].failedCount + 1)
  {
    if cid in campaigns then campaigns[cid := campaigns[cid].(failedCount := campaigns[cid].failedCount + 1)] else campaigns
  }

  function BumpQuota(quota: map<Day, QuotaRecord>, today: Day): (r: map<Day, QuotaRecord>)
    ensures r.Keys == quota.Keys
  {
    if today in quota then quota[today := quota[today].(emailsSent := quota[today].emailsSent + 1)] else quota
  }

  /** What an outcome does to the tables: on delivery the task becomes sent
      with the timestamp, its campaign's sent counter and today's quota
      counter go up by one; on rejection the task becomes failed with the
      reason and one more attempt, and its campaign's failed counter goes up
      by one. */
  function RecordOutcome(t: Tables, row: SelectedRow, outcome: SendOutcome, today: Day, now: Time): Tables {
    match outcome
    case Delivered =>
      t.(tasks := MarkSent(t.tasks, row.index, now),
         campaigns := BumpSent(t.campaigns, row.campaignId),
         quota := BumpQuota(t.quota, today))
    case Rejected(reason) =>
      t.(tasks := MarkFailed(t.tasks, row.index, reason),
         campaigns := BumpFailed(t.campaigns, row.campaignId))
  }

  /** One iteration of the loop: skip the row when its template is missing;
      otherwise compose the message, call the transport and record the
      outcome on the task, the campaign counters and (on delivery) the quota
      row. */
  function Step(st: PassState, row: SelectedRow, today: Day, now: Time, transport: Transport): PassState {
    match TemplateById(st.tables.templates, row.templateId)
    case None => st
    case Some(tpl) =>
      var msg := ComposeMessage(row.email, tpl, ContactOf(st.tables.contacts, row.contactId));
      var outcome := transport(|st.log|, msg);
      PassState(RecordOutcome(st.tables, row, outcome, today, now),
                st.sent + (if outcome.Delivered? then 1 else 0),
                st.failed + (if outcome.Delivered? then 0 else 1),
                st.log + [Attempt(msg, outcome)])
  }

  /** The loop over `rows`, in order. */
  function Steps(init: PassState, rows: seq<SelectedRow>, today: Day, now: Time, transport: Transport): PassState
    decreases |rows|
  {
    if rows == [] then init
    else Step(Steps(init, rows[..|rows| - 1], today, now, transport), rows[|rows| - 1], today, now, transport)
  }

  /** The number of calls the transport accepted. */
  function CountDelivered(log: seq<Attempt>): (n: nat)
    ensures n <= |log|
  {
    if log == [] then 0
    else CountDelivered(log[..|log| - 1]) + (if log[|log| - 1].outcome.Delivered? then 1 else 0)
  }

  /** Outcome bookkeeping for one task: a row without a template changes
      nothing; otherwise exactly one transport call is made, and on delivery
      the task becomes sent with the pass's timestamp, its campaign's sent
      counter and today's quota counter go up by one; on rejection the task
      becomes failed with the reason and one more attempt, its campaign's
      failed counter goes up by one and the quota row is left alone. No
      other task changes. */
  lemma StepBookkeeping(st: PassState, row: SelectedRow, today: Day, now: Time, transport: Transport)
    requires row.index < |st.tables.tasks|
    ensures var st' := Step(st, row, today, now, transport);
            var t := st.tables;
            var t' := st'.tables;
            var k := row.index;
            var cid := row.campaignId;
            && (TemplateById(t.templates, row.templateId).None? ==> st' == st)
            && (TemplateById(t.templates, row.templateId).Some? ==>
                  && |st'.log| == |st.log| + 1 && st'.log[..|st.log|] == st.log
                  && |t'.tasks| == |t.tasks|
                  && (forall i :: 0 <= i < |t.tasks| && i != k ==> t'.tasks[i] == t.tasks[i])
                  && t'.templates == t.templates && t'.contacts == t.contacts && t'.lists == t.lists
                  && t'.nextCampaignId == t.nextCampaignId
                  && (forall c :: c in t.campaigns && c != cid ==> c in t'.campaigns && t'.campaigns[c] == t.campaigns[c])
                  && (st'.log[|st.log|].outcome.Delivered? ==>
                        && t'.tasks[k] == t.tasks[k].(status := Sent, sentAt := Some(now))
                        && st'.sent == st.sent + 1 && st'.failed == st.failed
                        && (cid in t.campaigns ==> t'.campaigns[cid] == t.campaigns[cid].(sentCount := t.campaigns[cid].sentCount + 1))
                        && (today in t.quota ==> t'.quota == t.quota[today := t.quota[today].(emailsSent := t.quota[today].emailsSent + 1)]))
                  && (st'.log[|st.log|].outcome.Rejected? ==>
                        && t'.tasks[k] == t.tasks[k].(status := Failed,
                                                      errorMessage := Some(st'.log[|st.log|].outcome.reason),
                                                      attempts := t.tasks[k].attempts + 1)
                        && st'.sent == st.sent && st'.failed == st.failed + 1
                        && (cid in t.campaigns ==> t'.campaigns[cid] == t.campaigns[cid].(failedCount := t.campaigns[cid].failedCount + 1))
                        && t'.quota == t.quota))
  {
    match TemplateById(st.tables.templates, row.templateId)
    case None =>
    case Some(tpl) =>
      var msg := ComposeMessage(row.email, tpl, ContactOf(st.tables.contacts, row.contactId));
      var st' := Step(st, row, today, now, transport);
      assert st'.log == st.log + [Attempt(msg, transport(|st.log|, msg))];
      assert st'.log[..|st.log|] == st.log;
  }

  /** Settling one pending task and bumping the matching counter of its
      campaign keeps every campaign's counters in step with its tasks. */
  lemma CountersAfterOutcome(tasks: seq<SendTask>, campaigns: map<nat, Campaign>, k: nat, task': SendTask,
                             campaigns': map<nat, Campaign>)
    requires k < |tasks| && tasks[k].status == Pending && task'.campaignId == tasks[k].campaignId
    requires forall c :: c in campaigns ==>
               && campaigns[c].sentCount == CountTasks(tasks, c, Sent)
               && campaigns[c].failedCount == CountTasks(tasks, c, Failed)
    requires campaigns'.Keys == campaigns.Keys
    requires forall c :: c in campaigns && c != tasks[k].campaignId ==> campaigns'[c] == campaigns[c]
    requires tasks[k].campaignId in campaigns ==>
               && campaigns'[tasks[k].campaignId].sentCount
                  == campaigns[tasks[k].campaignId].sentCount + (if task'.status == Sent then 1 else 0)
               && campaigns'[tasks[k].campaignId].failedCount
                  == campaigns[tasks[k].campaignId].failedCount + (if task'.status == Failed then 1 else 0)
    ensures forall c :: c in campaigns' ==>
              && campaigns'[c].sentCount == CountTasks(tasks[k := task'], c, Sent)
              && campaigns'[c].failedCount == CountTasks(tasks[k := task'], c, Failed)
  {
    forall c | c in campaigns'
      ensures campaigns'[c].sentCount == CountTasks(tasks[k := task'], c, Sent)
      ensures campaigns'[c].failedCount == CountTasks(tasks[k := task'], c, Failed)
    {
      CountTasksUpdate(tasks, k, task', c, Sent);
      CountTasksUpdate(tasks, k, task', c, Failed);
    }
  }

  /** Recording the outcome of a pending task of the row's campaign keeps
      the tables consistent. */
  lemma RecordKeepsConsistent(t: Tables, row: SelectedRow, outcome: SendOutcome, today: Day, now: Time)
    requires Consistent(t)
    requires row.index < |t.tasks|
    requires t.tasks[row.index].status == Pending
    requires t.tasks[row.index].campaignId == row.campaignId
    ensures Consistent(RecordOutcome(t, row, outcome, today, now))
  {
    var t' := RecordOutcome(t, row, outcome, today, now);
    var k := row.index;
    assert t'.tasks == t.tasks[k := t'.tasks[k]];
    CountersAfterOutcome(t.tasks, t.campaigns, k, t'.tasks[k], t'.campaigns);
    assert forall i :: 0 <= i < |t'.tasks| ==> t'.tasks[i].campaignId == t.tasks[i].campaignId;
  }

  /** A task that is pending and belongs to the row's campaign keeps the
      tables consistent when its row is handled. */
  lemma StepKeepsConsistent(st: PassState, row: SelectedRow, today: Day, now: Time, transport: Transport)
    requires Consistent(st.tables)
    requires row.index < |st.tables.tasks|
    requires st.tables.tasks[row.index].status == Pending
    requires st.tables.tasks[row.index].campaignId == row.campaignId
    ensures Consistent(Step(st, row, today, now, transport).tables)
  {
    match TemplateById(st.tables.templates, row.templateId)
    case None =>
    case Some(tpl) =>
      var msg := ComposeMessage(row.email, tpl, ContactOf(st.tables.contacts, row.contactId));
      RecordKeepsConsistent(st.tables, row, transport(|st.log|, msg), today, now);
  }

  // ---------------------------------------------------------------------
  // The loop

  /** What one iteration preserves, whatever the row: the shape of the
      tables, one transport call per counted outcome, the quota row grows by
      the deliveries, and no task other than the row's changes. */
  lemma StepShape(st: PassState, row: SelectedRow, today: Day, now: Time, transport: Transport)
    ensures var st' := Step(st, row, today, now, transport);
            var t := st.tables;
            var t' := st'.tables;
            && |t'.tasks| == |t.tasks| && t'.campaigns.Keys == t.campaigns.Keys && t'.quota.Keys == t.quota.Keys
            && t'.templates == t.templates && t'.contacts == t.contacts && t'.lists == t.lists
            && t'.nextCampaignId == t.nextCampaignId
            && st'.sent >= st.sent && st'.failed >= st.failed
            && (st'.sent - st.sent) + (st'.failed - st.failed) <= 1
            && |st'.log| == |st.log| + (st'.sent - st.sent) + (st'.failed - st.failed)
            && st'.log[..|st.log|] == st.log
            && CountDelivered(st'.log) == CountDelivered(st.log) + (st'.sent - st.sent)
            && (today in t.quota ==>
                  t'.quota[today] == t.quota[today].(emailsSent := t.quota[today].emailsSent + (st'.sent - st.sent)))
            && (forall d :: d in t.quota && d != today ==> t'.quota[d] == t.quota[d])
            && (forall k :: 0 <= k < |t.tasks| && k != row.index ==> t'.tasks[k] == t.tasks[k])
  {
    var st' := Step(st, row, today, now, transport);
    if TemplateById(st.tables.templates, row.templateId).Some? {
      assert st'.log[..|st'.log| - 1] == st.log;
    }
  }

  /** The tables keep their shape through the loop, and a task no row names
      is untouched. */
  lemma {:induction false} StepsFrame(init: PassState, rows: seq<SelectedRow>, today: Day, now: Time, transport: Transport)
    ensures var t := init.tables;
            var t' := Steps(init, rows, today, now, transport).tables;
            && |t'.tasks| == |t.tasks| && t'.campaigns.Keys == t.campaigns.Keys && t'.quota.Keys == t.quota.Keys
            && t'.templates == t.templates && t'.contacts == t.contacts && t'.lists == t.lists
            && t'.nextCampaignId == t.nextCampaignId
            && (forall k :: 0 <= k < |t.tasks| && (forall j :: 0 <= j < |rows| ==> rows[j].index != k) ==> t'.tasks[k] == t.tasks[k])
    decreases |rows|
  {
    if rows != [] {
      var prefix := rows[..|rows| - 1];
      var last := rows[|rows| - 1];
      var mid := Steps(init, prefix, today, now, transport);
      StepsFrame(init, prefix, today, now, transport);
      StepShape(mid, last, today, now, transport);
      assert forall j :: 0 <= j < |prefix| ==> prefix[j] == rows[j];
    }
  }

  /** Through the loop the local counters count the transport calls, the
      deliveries among them, and the growth of today's quota row. */
  lemma {:induction false} StepsCount(init: PassState, rows: seq<SelectedRow>, today: Day, now: Time, transport: Transport)
    ensures var st := Steps(init, rows, today, now, transport);
            var t := init.tables;
            var t' := st.tables;
            && st.sent >= init.sent && st.failed >= init.failed
            && |st.log| == |init.log| + (st.sent - init.sent) + (st.failed - init.failed)
            && (st.sent - init.sent) + (st.failed - init.failed) <= |rows|
            && st.log[..|init.log|] == init.log
            && CountDelivered(st.log) == CountDelivered(init.log) + (st.sent - init.sent)
            && t'.quota.Keys == t.quota.Keys
            && (today in t.quota ==>
                  t'.quota[today] == t.quota[today].(emailsSent := t.quota[today].emailsSent + (st.sent - init.sent)))
            && (forall d :: d in t.quota && d != today ==> t'.quota[d] == t.quota[d])
    decreases |rows|
  {
    if rows != [] {
      var prefix := rows[..|rows| - 1];
      var mid := Steps(init, prefix, today, now, transport);
      StepsCount(init, prefix, today, now, transport);
      StepShape(mid, rows[|rows| - 1], today, now, transport);
      var st := Steps(init, rows, today, now, transport);
      assert st.log[..|init.log|] == st.log[..|mid.log|][..|init.log|];
    }
  }

  /** Rows of distinct tasks, in increasing order, each pending and of the
      row's campaign when the loop starts. */
  ghost predicate RowsFresh(t: Tables, rows: seq<SelectedRow>) {
    && (forall j :: 0 <= j < |rows| ==>
          && rows[j].index < |t.tasks|
          && t.tasks[rows[j].index].status == Pending
          && t.tasks[rows[j].index].campaignId == rows[j].campaignId)
    && (forall j, j' :: 0 <= j < j' < |rows| ==> rows[j].index < rows[j'].index)
  }

  /** Over fresh rows, every row with a template settles its task (sent or
      failed) and every row without one leaves its task as it was. */
  lemma {:induction false} StepsSettle(init: PassState, rows: seq<SelectedRow>, today: Day, now: Time, transport: Transport)
    requires RowsFresh(init.tables, rows)
    ensures var t := init.tables;
            var t' := Steps(init, rows, today, now, transport).tables;
            && |t'.tasks| == |t.tasks|
            && (forall j :: 0 <= j < |rows| ==>
                  if TemplateById(t.templates, rows[j].templateId).Some?
                  then t'.tasks[rows[j].index].status != Pending
                  else t'.tasks[rows[j].index] == t.tasks[rows[j].index])
    decreases |rows|
  {
    if rows != [] {
      var t := init.tables;
      var prefix := rows[..|rows| - 1];
      var last := rows[|rows| - 1];
      assert RowsFresh(t, prefix);
      var mid := Steps(init, prefix, today, now, transport);
      StepsSettle(init, prefix, today, now, transport);
      StepsFrame(init, prefix, today, now, transport);
      StepShape(mid, last, today, now, transport);
      var t' := Step(mid, last, today, now, transport).tables;
      forall j | 0 <= j < |rows|
        ensures if TemplateById(t.templates, rows[j].templateId).Some?
                then t'.tasks[rows[j].index].status != Pending
                else t'.tasks[rows[j].index] == t.tasks[rows[j].index]
      {
        if j < |prefix| {
          assert prefix[j] == rows[j];
          assert rows[j].index != last.index;
        } else {
          assert forall j' :: 0 <= j' < |prefix| ==> prefix[j'].index != last.index;
          StepBookkeeping(mid, last, today, now, transport);
        }
      }
    }
  }

  /** Over fresh rows only the rows' tasks change, each from pending to
      sent or failed. */
  lemma StepsTouchOnlyRows(init: PassState, rows: seq<SelectedRow>, today: Day, now: Time, transport: Transport)
    requires RowsFresh(init.tables, rows)
    ensures var t := init.tables;
            var t' := Steps(init, rows, today, now, transport).tables;
            && |t'.tasks| == |t.tasks|
            && forall k :: 0 <= k < |t.tasks| && t'.tasks[k] != t.tasks[k] ==>
                 && (exists j :: 0 <= j < |rows| && rows[j].index == k)
                 && t.tasks[k].status == Pending
                 && t'.tasks[k].status != Pending
  {
    var t := init.tables;
    var t' := Steps(init, rows, today, now, transport).tables;
    StepsFrame(init, rows, today, now, transport);
    StepsSettle(init, rows, today, now, transport);
    forall k | 0 <= k < |t.tasks| && t'.tasks[k] != t.tasks[k]
      ensures t.tasks[k].status == Pending && t'.tasks[k].status != Pending
    {
      var j :| 0 <= j < |rows| && rows[j].index == k;
    }
  }

  /** Over fresh rows the loop keeps the tables consistent. */
  lemma {:induction false} StepsKeepConsistent(init: PassState, rows: seq<SelectedRow>, today: Day, now: Time, transport: Transport)
    requires RowsFresh(init.tables, rows)
    requires Consistent(init.tables)
    ensures Consistent(Steps(init, rows, today, now, transport).tables)
    decreases |rows|
  {
    if rows != [] {
      var t := init.tables;
      var prefix := rows[..|rows| - 1];
      var last := rows[|rows| - 1];
      assert RowsFresh(t, prefix);
      var mid := Steps(init, prefix, today, now, transport);
      StepsKeepConsistent(init, prefix, today, now, transport);
      StepsFrame(init, prefix, today, now, transport);
      assert forall j :: 0 <= j < |prefix| ==> prefix[j].index != last.index;
      StepKeepsConsistent(mid, last, today, now, transport);
    }
  }

  // ---------------------------------------------------------------------
  // The pass

  /** Today's quota row as the pass sees it: the stored one, or a new one
      with nothing sent and the configured limit (4000 by default). */
  function QuotaRow(t: Tables, cfg: Config, today: Day): (q: QuotaRecord)
    ensures today in t.quota ==> q == t.quota[today]
    ensures today !in t.quota ==> q == QuotaRecord(0, OrDefault(cfg.dailyEmailLimit, DefaultDailyLimit))
  {
    if today in t.quota then t.quota[today] else QuotaRecord(0, OrDefault(cfg.dailyEmailLimit, DefaultDailyLimit))
  }

  function Remaining(t: Tables, cfg: Config, today: Day): int {
    QuotaRow(t, cfg, today).quotaLimit - QuotaRow(t, cfg, today).emailsSent
  }

  /** `Math.min(parseInt(BATCH_SIZE) || 50, remainingQuota)`. */
  function BatchLimit(t: Tables, cfg: Config, today: Day): (n: int)
    ensures n <= Remaining(t, cfg, today)
  {
    Min(OrDefault(cfg.batchSize, DefaultBatchSize), Remaining(t, cfg, today))
  }

  /** The tables once today's quota row exists. */
  function WithQuotaRow(t: Tables, cfg: Config, today: Day): Tables {
    if today in t.quota then t else t.(quota := t.quota[today := QuotaRow(t, cfg, today)])
  }

  /** The tasks the pass selects: none when the quota is used up or the
      batch query fails, otherwise the batch. */
  function PassIndices(t: Tables, cfg: Config, today: Day): (ks: seq<nat>)
    ensures ks != [] ==> 0 <= BatchLimit(t, cfg, today) && |ks| <= BatchLimit(t, cfg, today) <= Remaining(t, cfg, today)
    ensures forall j :: 0 <= j < |ks| ==> ks[j] < |t.tasks| && Eligible(t.tasks, t.campaigns, ks[j])
    ensures forall j, j' :: 0 <= j < j' < |ks| ==> ks[j] < ks[j']
  {
    if Remaining(t, cfg, today) <= 0 || BatchLimit(t, cfg, today) < 0 then []
    else BatchIndices(t.tasks, t.campaigns, BatchLimit(t, cfg, today))
  }

  /** How many rows the loop handles before a fault, if any, is raised. */
  function StopAt(fault: Option<Fault>, n: nat): (stop: nat)
    ensures stop <= n
  {
    if fault.Some? && fault.value.at < n then fault.value.at else n
  }

  /** The campaign has as many outcomes as recipients. */
  predicate Finished(c: Campaign) {
    c.sentCount + c.failedCount >= c.totalRecipients
  }

  function Swept(c: Campaign, now: Time): Campaign {
    if c.status == Active && Finished(c) then c.(status := Completed, completedAt := Some(now)) else c
  }

  /** The completion sweep: every active campaign that is finished becomes
      completed with the pass's timestamp. */
  function SweepCampaigns(campaigns: map<nat, Campaign>, now: Time): (r: map<nat, Campaign>)
    ensures r.Keys == campaigns.Keys
  {
    map cid | cid in campaigns :: Swept(campaigns[cid], now)
  }

  /** `processPendingEmails` on the tables `t`. */
  function Pass(t: Tables, cfg: Config, today: Day, now: Time, transport: Transport, fault: Option<Fault>): PassOutcome {
    var t1 := WithQuotaRow(t, cfg, today);
    if Remaining(t, cfg, today) <= 0 then
      PassOutcome(t1, PassResult(0, 0, true, None), [])
    else if BatchLimit(t, cfg, today) < 0 then
      PassOutcome(t1, PassResult(0, 0, false, Some(NegativeLimitError)), [])
    else
      var rows := SelectBatch(t.tasks, t.campaigns, BatchLimit(t, cfg, today));
      var st := Steps(PassState(t1, 0, 0, []), rows[..StopAt(fault, |rows|)], today, now, transport);
      if fault.Some? then
        PassOutcome(st.tables, PassResult(0, 0, false, Some(fault.value.message)), st.log)
      else
        PassOutcome(st.tables.(campaigns := SweepCampaigns(st.tables.campaigns, now)),
                    PassResult(st.sent, st.failed, false, None), st.log)
  }

  // ---------------------------------------------------------------------
  // Properties of the pass

  /** The task's campaign exists and its template is found. */
  predicate HasTemplate(t: Tables, k: nat) {
    && k < |t.tasks|
    && t.tasks[k].campaignId in t.campaigns
    && TemplateById(t.templates, t.campaigns[t.tasks[k].campaignId].templateId).Some?
  }

  /** The selected rows, cut anywhere, are fresh for the loop. */
  lemma SelectedRowsFresh(t: Tables, t1: Tables, limit: nat, stop: nat)
    requires t1.tasks == t.tasks
    requires stop <= |SelectBatch(t.tasks, t.campaigns, limit)|
    ensures RowsFresh(t1, SelectBatch(t.tasks, t.campaigns, limit)[..stop])
    ensures forall j :: 0 <= j < stop ==>
              SelectBatch(t.tasks, t.campaigns, limit)[..stop][j] == RowOf(t.tasks, t.campaigns, BatchIndices(t.tasks, t.campaigns, limit)[j])
  {
    var rows := SelectBatch(t.tasks, t.campaigns, limit);
    var ks := BatchIndices(t.tasks, t.campaigns, limit);
    assert forall j :: 0 <= j < stop ==> rows[..stop][j] == rows[j] && rows[j].index == ks[j];
  }

  /** When the quota is used up the pass reports `quota_reached`, makes no
      transport call, and changes no task and no campaign; only today's
      quota row is created if it was missing. */
  lemma PassWhenQuotaReached(t: Tables, cfg: Config, today: Day, now: Time, transport: Transport, fault: Option<Fault>)
    requires Remaining(t, cfg, today) <= 0
    ensures var r := Pass(t, cfg, today, now, transport, fault);
            && r.result == PassResult(0, 0, true, None) && r.log == []
            && r.tables.tasks == t.tasks && r.tables.campaigns == t.campaigns
            && today in r.tables.quota && r.tables.quota[today] == QuotaRow(t, cfg, today)
  {
  }

  /** Today's quota row exists after the pass (created with nothing sent and
      the configured limit when it was missing), grows by exactly the number
      of deliveries, and never ends up above its limit because of this pass;
      other days are untouched. */
  lemma PassRespectsQuota(t: Tables, cfg: Config, today: Day, now: Time, transport: Transport, fault: Option<Fault>)
    ensures var r := Pass(t, cfg, today, now, transport, fault);
            var q := QuotaRow(t, cfg, today);
            && today in r.tables.quota
            && r.tables.quota[today].quotaLimit == q.quotaLimit
            && r.tables.quota[today].emailsSent == q.emailsSent + CountDelivered(r.log)
            && (CountDelivered(r.log) > 0 ==> r.tables.quota[today].emailsSent <= q.quotaLimit)
            && (q.emailsSent <= q.quotaLimit ==> r.tables.quota[today].emailsSent <= q.quotaLimit)
            && (forall d :: d in t.quota && d != today ==> d in r.tables.quota && r.tables.quota[d] == t.quota[d])
  {
    if Remaining(t, cfg, today) > 0 && BatchLimit(t, cfg, today) >= 0 {
      var t1 := WithQuotaRow(t, cfg, today);
      var rows := SelectBatch(t.tasks, t.campaigns, BatchLimit(t, cfg, today));
      var init := PassState(t1, 0, 0, []);
      var cut := rows[..StopAt(fault, |rows|)];
      StepsCount(init, cut, today, now, transport);
      assert CountDelivered([]) == 0;
    }
  }

  /** Only tasks the pass selected (pending tasks of active campaigns, at
      most `min(batch size, remaining quota)` of them, oldest first) can
      change, and a task that changes goes from pending to sent or failed:
      no task leaves `pending` twice, and a sent or failed task is never
      touched again. */
  lemma PassTouchesOnlyBatch(t: Tables, cfg: Config, today: Day, now: Time, transport: Transport, fault: Option<Fault>)
    ensures var r := Pass(t, cfg, today, now, transport, fault);
            && |r.tables.tasks| == |t.tasks|
            && forall k :: 0 <= k < |t.tasks| && r.tables.tasks[k] != t.tasks[k] ==>
                 && k in PassIndices(t, cfg, today)
                 && t.tasks[k].status == Pending
                 && r.tables.tasks[k].status != Pending
  {
    if Remaining(t, cfg, today) > 0 && BatchLimit(t, cfg, today) >= 0 {
      var t1 := WithQuotaRow(t, cfg, today);
      var limit: nat := BatchLimit(t, cfg, today);
      var rows := SelectBatch(t.tasks, t.campaigns, limit);
      var ks := BatchIndices(t.tasks, t.campaigns, limit);
      var init := PassState(t1, 0, 0, []);
      var stop := StopAt(fault, |rows|);
      var cut := rows[..stop];
      SelectedRowsFresh(t, t1, limit, stop);
      StepsTouchOnlyRows(init, cut, today, now, transport);
      var t' := Steps(init, cut, today, now, transport).tables;
      forall k | 0 <= k < |t.tasks| && t'.tasks[k] != t.tasks[k]
        ensures k in ks
      {
        var j :| 0 <= j < |cut| && cut[j].index == k;
        assert ks[j] == k;
      }
    }
  }

  /** A pass keeps every campaign's counters in step with the outcomes of
      its tasks. */
  lemma PassKeepsConsistent(t: Tables, cfg: Config, today: Day, now: Time, transport: Transport, fault: Option<Fault>)
    requires Consistent(t)
    ensures Consistent(Pass(t, cfg, today, now, transport, fault).tables)
  {
    var t1 := WithQuotaRow(t, cfg, today);
    assert Consistent(t1) by {
      assert t1.campaigns == t.campaigns && t1.tasks == t.tasks;
    }
    if Remaining(t, cfg, today) > 0 && BatchLimit(t, cfg, today) >= 0 {
      var limit: nat := BatchLimit(t, cfg, today);
      var rows := SelectBatch(t.tasks, t.campaigns, limit);
      var init := PassState(t1, 0, 0, []);
      var stop := StopAt(fault, |rows|);
      SelectedRowsFresh(t, t1, limit, stop);
      StepsKeepConsistent(init, rows[..stop], today, now, transport);
      SweepKeepsConsistent(Steps(init, rows[..stop], today, now, transport).tables, now);
    }
  }

  /** The sweep touches no counter, so it keeps the tables consistent. */
  lemma SweepKeepsConsistent(t: Tables, now: Time)
    requires Consistent(t)
    ensures Consistent(t.(campaigns := SweepCampaigns(t.campaigns, now)))
  {
    var t2 := t.(campaigns := SweepCampaigns(t.campaigns, now));
    assert forall cid :: cid in t2.campaigns ==>
      t2.campaigns[cid].sentCount == t.campaigns[cid].sentCount
      && t2.campaigns[cid].failedCount == t.campaigns[cid].failedCount;
  }

  /** A pass that runs to the end reports `sent` as the number of deliveries
      and `sent + failed` as the number of transport calls, which is at most
      the number of selected tasks; every selected task whose template exists
      is settled, and the sweep has left no finished campaign active. */
  lemma PassReportsAttempts(t: Tables, cfg: Config, today: Day, now: Time, transport: Transport, fault: Option<Fault>)
    requires fault.None? && Remaining(t, cfg, today) > 0 && BatchLimit(t, cfg, today) >= 0
    ensures var r := Pass(t, cfg, today, now, transport, fault);
            var ks := PassIndices(t, cfg, today);
            && !r.result.quotaReached && r.result.error.None?
            && r.result.sent == CountDelivered(r.log)
            && r.result.sent + r.result.failed == |r.log| <= |ks|
            && |r.tables.tasks| == |t.tasks|
            && (forall j :: 0 <= j < |ks| && HasTemplate(t, ks[j]) ==> r.tables.tasks[ks[j]].status != Pending)
            && (forall cid :: cid in r.tables.campaigns && r.tables.campaigns[cid].status == Active
                  ==> !Finished(r.tables.campaigns[cid]))
  {
    var t1 := WithQuotaRow(t, cfg, today);
    var limit: nat := BatchLimit(t, cfg, today);
    var rows := SelectBatch(t.tasks, t.campaigns, limit);
    var init := PassState(t1, 0, 0, []);
    assert rows[..|rows|] == rows;
    SelectedRowsFresh(t, t1, limit, |rows|);
    StepsCount(init, rows, today, now, transport);
    StepsSettle(init, rows, today, now, transport);
    assert CountDelivered([]) == 0;
  }

  /** A storage error discards the counts: the result is `sent: 0,
      failed: 0` with the error, although the calls made before it happened
      (at most `at` of them) stay recorded in the tables; a negative batch
      size fails the batch query before any call. */
  lemma PassErrorDiscardsCounts(t: Tables, cfg: Config, today: Day, now: Time, transport: Transport, fault: Option<Fault>)
    requires Remaining(t, cfg, today) > 0
    requires fault.Some? || BatchLimit(t, cfg, today) < 0
    ensures var r := Pass(t, cfg, today, now, transport, fault);
            && r.result.sent == 0 && r.result.failed == 0 && !r.result.quotaReached
            && (BatchLimit(t, cfg, today) < 0 ==>
                  r.result.error == Some(NegativeLimitError) && r.log == [] && r.tables == WithQuotaRow(t, cfg, today))
            && (BatchLimit(t, cfg, today) >= 0 ==>
                  r.result.error == Some(fault.value.message) && |r.log| <= fault.value.at
                  && today in r.tables.quota
                  && r.tables.quota[today].emailsSent == QuotaRow(t, cfg, today).emailsSent + CountDelivered(r.log))
  {
    PassRespectsQuota(t, cfg, today, now, transport, fault);
    if BatchLimit(t, cfg, today) >= 0 {
      var t1 := WithQuotaRow(t, cfg, today);
      var rows := SelectBatch(t.tasks, t.campaigns, BatchLimit(t, cfg, today));
      StepsCount(PassState(t1, 0, 0, []), rows[..StopAt(fault, |rows|)], today, now, transport);
    }
  }

  /** A task whose campaign has no template is skipped: it stays exactly as
      it was (pending, if it was). */
  lemma PassSkipsMissingTemplate(t: Tables, cfg: Config, today: Day, now: Time, transport: Transport, fault: Option<Fault>, k: nat)
    requires k < |t.tasks| && !HasTemplate(t, k)
    ensures var r := Pass(t, cfg, today, now, transport, fault);
            |r.tables.tasks| == |t.tasks| && r.tables.tasks[k] == t.tasks[k]
  {
    PassTouchesOnlyBatch(t, cfg, today, now, transport, fault);
    if Remaining(t, cfg, today) > 0 && BatchLimit(t, cfg, today) >= 0 {
      var t1 := WithQuotaRow(t, cfg, today);
      var limit: nat := BatchLimit(t, cfg, today);
      var rows := SelectBatch(t.tasks, t.campaigns, limit);
      var ks := BatchIndices(t.tasks, t.campaigns, limit);
      var init := PassState(t1, 0, 0, []);
      var stop := StopAt(fault, |rows|);
      var cut := rows[..stop];
      SelectedRowsFresh(t, t1, limit, stop);
      StepsFrame(init, cut, today, now, transport);
      StepsSettle(init, cut, today, now, transport);
      if j :| 0 <= j < |cut| && cut[j].index == k {
        assert ks[j] == k;
      }
    }
  }

  /** The campaigns with their stored `daily_limit` replaced. */
  function WithDailyLimits(campaigns: map<nat, Campaign>, limit: nat -> int): (r: map<nat, Campaign>)
    ensures r.Keys == campaigns.Keys
  {
    map cid | cid in campaigns :: campaigns[cid].(dailyLimit := limit(cid))
  }

  lemma {:induction false} EligibleIgnoresDailyLimit(tasks: seq<SendTask>, campaigns: map<nat, Campaign>, limit: nat -> int, n: nat)
    requires n <= |tasks|
    ensures EligibleBelow(tasks, WithDailyLimits(campaigns, limit), n) == EligibleBelow(tasks, campaigns, n)
  {
    if n > 0 {
      EligibleIgnoresDailyLimit(tasks, campaigns, limit, n - 1);
      assert Eligible(tasks, WithDailyLimits(campaigns, limit), n - 1) == Eligible(tasks, campaigns, n - 1);
    }
  }

  /** A campaign's `daily_limit` plays no part in a pass: whatever the
      stored limits are, the pass selects the same rows under the same quota. */
  lemma DailyLimitNotRead(t: Tables, cfg: Config, today: Day, limit: nat -> int)
    ensures var t' := t.(campaigns := WithDailyLimits(t.campaigns, limit));
            && Remaining(t', cfg, today) == Remaining(t, cfg, today)
            && BatchLimit(t', cfg, today) == BatchLimit(t, cfg, today)
            && PassIndices(t', cfg, today) == PassIndices(t, cfg, today)
            && (BatchLimit(t, cfg, today) >= 0 ==>
                  SelectBatch(t'.tasks, t'.campaigns, BatchLimit(t, cfg, today))
                  == SelectBatch(t.tasks, t.campaigns, BatchLimit(t, cfg, today)))
  {
    var cs := WithDailyLimits(t.campaigns, limit);
    EligibleIgnoresDailyLimit(t.tasks, t.campaigns, limit, |t.tasks|);
    var n := BatchLimit(t, cfg, today);
    if n >= 0 {
      var ks := BatchIndices(t.tasks, t.campaigns, n);
      assert BatchIndices(t.tasks, cs, n) == ks;
      forall j | 0 <= j < |ks|
        ensures RowOf(t.tasks, cs, ks[j]) == RowOf(t.tasks, t.campaigns, ks[j])
      {
        assert cs[t.tasks[ks[j]].campaignId].templateId == t.campaigns[t.tasks[ks[j]].campaignId].templateId;
      }
    }
  }

  /** After the sweep no active campaign is finished; the sweep changes only
      the status and completion time of campaigns it completes, and sweeping
      again changes nothing. */
  lemma SweepCompletesFinished(campaigns: map<nat, Campaign>, now: Time)
    ensures var r := SweepCampaigns(campaigns, now);
            && (forall cid :: cid in r && r[cid].status == Active ==> !Finished(r[cid]))
            && (forall cid :: cid in campaigns && campaigns[cid].status == Active && Finished(campaigns[cid]) ==>
                  r[cid] == campaigns[cid].(status := Completed, completedAt := Some(now)))
            && (forall cid :: cid in campaigns && !(campaigns[cid].status == Active && Finished(campaigns[cid])) ==>
                  r[cid] == campaigns[cid])
            && SweepCampaigns(r, now) == r
  {
  }

  // ---------------------------------------------------------------------
  // The pass on the database

  /** `sendEmail`: build the options (text preferred, tags stripped from the
      HTML as a fallback, HTML attached only without text), call the
      transport, and mark the task sent or failed. */
  method SendEmail(db: Database, index: nat, toEmail: string, subject: string, htmlContent: string, textContent: string,
                   now: Time, call: nat, transport: Transport)
    returns (outcome: SendOutcome, message: Message)
    modifies db
    ensures message == MailOptions(toEmail, subject, htmlContent, textContent)
    ensures outcome == transport(call, message)
    ensures db.tasks == if outcome.Delivered? then MarkSent(old(db.tasks), index, now)
                        else MarkFailed(old(db.tasks), index, outcome.reason)
    ensures db.campaigns == old(db.campaigns) && db.quota == old(db.quota)
    ensures db.nextCampaignId == old(db.nextCampaignId) && db.lists == old(db.lists)
    ensures db.contacts == old(db.contacts) && db.templates == old(db.templates)
  {
    var textBody := textContent;
    if textBody == "" {
      textBody := if htmlContent != "" then StripTags(htmlContent) else "";
    }
    var html: Option<string> := None;
    if htmlContent != "" && textContent == "" {
      html := Some(htmlContent);
    }
    message := Message(toEmail, subject, textBody, html);
    outcome := transport(call, message);
    match outcome
    case Delivered =>
      db.tasks := MarkSent(db.tasks, index, now);
    case Rejected(reason) =>
      db.tasks := MarkFailed(db.tasks, index, reason);
  }

  /** One iteration of the loop on the database: look up the template,
      build the recipient's variables, render subject, text and HTML, send,
      and bump the campaign counter and (on delivery) the quota row. */
  method HandleRow(db: Database, row: SelectedRow, today: Day, now: Time, transport: Transport,
                   sent0: nat, failed0: nat, log0: seq<Attempt>)
    returns (sent: nat, failed: nat, log: seq<Attempt>)
    modifies db
    ensures PassState(db.Snapshot(), sent, failed, log)
         == Step(PassState(old(db.Snapshot()), sent0, failed0, log0), row, today, now, transport)
  {
    sent, failed, log := sent0, failed0, log0;
    var template := TemplateById(db.templates, row.templateId);
    if template.None? {
      return;
    }
    var tpl := template.value;
    var contactInfo := RecipientVars(row.email, ContactOf(db.contacts, row.contactId));
    var allVariables := Merge(tpl.variables, contactInfo);
    var subject := ReplaceVariables(tpl.subject, allVariables);
    var textContent := ReplaceVariables(tpl.textContent, allVariables);
    var htmlContent := "";
    if tpl.htmlContent != "" {
      htmlContent := ReplaceVariables(tpl.htmlContent, allVariables);
    }
    var outcome, message := SendEmail(db, row.index, row.email, subject, htmlContent, textContent, now, |log|, transport);
    log := log + [Attempt(message, outcome)];
    if outcome.Delivered? {
      sent := sent + 1;
      db.campaigns := BumpSent(db.campaigns, row.campaignId);
      db.quota := BumpQuota(db.quota, today);
    } else {
      failed := failed + 1;
      db.campaigns := BumpFailed(db.campaigns, row.campaignId);
    }
  }

  /** The loop over the batch: the rows in order, stopping where a fault is
      raised. */
  method RunBatch(db: Database, rows: seq<SelectedRow>, today: Day, now: Time, transport: Transport, fault: Option<Fault>)
    returns (sent: nat, failed: nat, log: seq<Attempt>)
    modifies db
    ensures PassState(db.Snapshot(), sent, failed, log)
         == Steps(PassState(old(db.Snapshot()), 0, 0, []), rows[..StopAt(fault, |rows|)], today, now, transport)
  {
    ghost var init := PassState(db.Snapshot(), 0, 0, []);
    sent, failed, log := 0, 0, [];
    var i := 0;
    assert rows[..i] == [];
    while i < |rows| && !(fault.Some? && fault.value.at == i)
      invariant 0 <= i <= |rows|
      invariant fault.Some? ==> i <= fault.value.at
      invariant PassState(db.Snapshot(), sent, failed, log) == Steps(init, rows[..i], today, now, transport)
    {
      sent, failed, log := HandleRow(db, rows[i], today, now, transport, sent, failed, log);
      assert rows[..i + 1][..i] == rows[..i];
      i := i + 1;
    }
    assert i == StopAt(fault, |rows|);
  }

  /** `processPendingEmails` on the database: the tables, the result and the
      transport calls are exactly those of `Pass`, so every property proved
      of `Pass` holds of it. */
  method ProcessPendingEmails(db: Database, cfg: Config, today: Day, now: Time, transport: Transport, fault: Option<Fault>)
    returns (result: PassResult, log: seq<Attempt>)
    modifies db
    ensures var p := Pass(old(db.Snapshot()), cfg, today, now, transport, fault);
            db.Snapshot() == p.tables && result == p.result && log == p.log
  {
    ghost var t := db.Snapshot();
    var emailsSentToday := 0;
    var quotaLimit := OrDefault(cfg.dailyEmailLimit, DefaultDailyLimit);
    if today in db.quota {
      emailsSentToday := db.quota[today].emailsSent;
      quotaLimit := db.quota[today].quotaLimit;
    } else {
      db.quota := db.quota[today := QuotaRecord(0, quotaLimit)];
    }
    assert db.Snapshot() == WithQuotaRow(t, cfg, today);
    var remainingQuota := quotaLimit - emailsSentToday;
    assert remainingQuota == Remaining(t, cfg, today);
    if remainingQuota <= 0 {
      return PassResult(0, 0, true, None), [];
    }
    var batchSize := Min(OrDefault(cfg.batchSize, DefaultBatchSize), remainingQuota);
    assert batchSize == BatchLimit(t, cfg, today);
    if batchSize < 0 {
      return PassResult(0, 0, false, Some(NegativeLimitError)), [];
    }
    var rows := SelectBatch(db.tasks, db.campaigns, batchSize);
    var sent, failed;
    sent, failed, log := RunBatch(db, rows, today, now, transport, fault);
    if fault.Some? {
      return PassResult(0, 0, false, Some(fault.value.message)), log;
    }
    db.campaigns := SweepCampaigns(db.campaigns, now);
    result := PassResult(sent, failed, false, None);
  }
}
