/** The rows of the database the three controllers and the dispatcher share
    (tables campaigns, email_lists, list_contacts, templates, email_sends and
    daily_quota), and the database itself as an object whose tables are
    updated in place. */
module Schema {
  import opened Js
  import opened TemplateRender

  /** A calendar date (`CURRENT_DATE`), abstracted to a number. */
  type Day = int
  /** An opaque timestamp (`CURRENT_TIMESTAMP`). */
  type Time = nat

  datatype CampaignStatus = Draft | Active | Paused | Completed

  datatype Campaign = Campaign(
    name: string,
    templateId: Option<nat>,
    listId: nat,
    totalRecipients: int,
    dailyLimit: int,
    createdBy: nat,
    status: CampaignStatus,
    sentCount: nat,
    failedCount: nat,
    startedAt: Option<Time>,
    completedAt: Option<Time>)

  datatype ListStatus = ListProcessing | ListCompleted | ListFailed

  datatype EmailList = EmailList(name: string, status: ListStatus, totalCount: nat, validCount: nat, invalidCount: nat)

  /** A row of list_contacts; a missing name is the empty string. */
  datatype ListContact = ListContact(listId: nat, email: string, name: string, isValid: bool, isUnsubscribed: bool)

  /** A row of templates; missing html or text content is the empty string. */
  datatype Template = Template(subject: string, htmlContent: string, textContent: string, variables: Vars)

  datatype TaskStatus = Pending | Sent | Failed

  /** A row of email_sends: one send task of a campaign. */
  datatype SendTask = SendTask(
    campaignId: nat,
    contactId: Option<nat>,
    email: string,
    status: TaskStatus,
    attempts: nat,
    errorMessage: Option<string>,
    sentAt: Option<Time>)

  /** A row of daily_quota. */
  datatype QuotaRecord = QuotaRecord(emailsSent: nat, quotaLimit: int)

  /** The whole database at one moment. Contacts and tasks are kept in
      insertion order; the row at index `k` has the serial id `k + 1`. */
  datatype Tables = Tables(
    campaigns: map<nat, Campaign>,
    nextCampaignId: nat,
    lists: map<nat, EmailList>,
    contacts: seq<ListContact>,
    templates: map<nat, Template>,
    tasks: seq<SendTask>,
    quota: map<Day, QuotaRecord>)

  /** `SELECT ... FROM list_contacts WHERE id = $1`. */
  function ContactById(contacts: seq<ListContact>, id: nat): (r: Option<ListContact>)
    ensures r.Some? <==> 1 <= id <= |contacts|
    ensures r.Some? ==> r.value == contacts[id - 1]
  {
    if 1 <= id <= |contacts| then Some(contacts[id - 1]) else None
  }

  /** The number of tasks of campaign `cid` whose status is `st`. */
  function CountTasks(tasks: seq<SendTask>, cid: nat, st: TaskStatus): (n: nat)
    ensures n <= |tasks|
  {
    if tasks == [] then 0
    else CountTasks(tasks[..|tasks| - 1], cid, st)
         + (if tasks[|tasks| - 1].campaignId == cid && tasks[|tasks| - 1].status == st then 1 else 0)
  }

  /** Appending tasks adds their own count. */
  lemma {:induction false} CountTasksAppend(tasks: seq<SendTask>, more: seq<SendTask>, cid: nat, st: TaskStatus)
    ensures CountTasks(tasks + more, cid, st) == CountTasks(tasks, cid, st) + CountTasks(more, cid, st)
    decreases |more|
  {
    if more == [] {
      assert tasks + more == tasks;
    } else {
      var last := |more| - 1;
      assert (tasks + more)[..|tasks + more| - 1] == tasks + more[..last];
      CountTasksAppend(tasks, more[..last], cid, st);
    }
  }

  /** Replacing one task changes each count by what the old and new task
      contribute to it. */
  lemma {:induction false} CountTasksUpdate(tasks: seq<SendTask>, i: nat, t: SendTask, cid: nat, st: TaskStatus)
    requires i < |tasks|
    ensures CountTasks(tasks[i := t], cid, st)
         == CountTasks(tasks, cid, st)
          - (if tasks[i].campaignId == cid && tasks[i].status == st then 1 else 0)
          + (if t.campaignId == cid && t.status == st then 1 else 0)
    decreases |tasks|
  {
    var last := |tasks| - 1;
    if i < last {
      assert tasks[i := t][..last] == tasks[..last][i := t];
      CountTasksUpdate(tasks[..last], i, t, cid, st);
    } else {
      assert tasks[i := t][..last] == tasks[..last];
    }
  }

  /** Tasks none of which is in state `st` for campaign `cid` count zero. */
  lemma {:induction false} CountTasksNone(tasks: seq<SendTask>, cid: nat, st: TaskStatus)
    requires forall k :: 0 <= k < |tasks| ==> tasks[k].campaignId != cid || tasks[k].status != st
    ensures CountTasks(tasks, cid, st) == 0
    decreases |tasks|
  {
    if tasks != [] {
      CountTasksNone(tasks[..|tasks| - 1], cid, st);
    }
  }

  /** Each campaign's counters agree with the outcomes of its tasks. */
  ghost predicate CountersInStep(t: Tables) {
    forall cid :: cid in t.campaigns ==>
      && t.campaigns[cid].sentCount == CountTasks(t.tasks, cid, Sent)
      && t.campaigns[cid].failedCount == CountTasks(t.tasks, cid, Failed)
  }

  /** The invariant every operation of the model keeps: campaign ids are
      below the next serial id, every task belongs to an existing campaign,
      and the counters are in step with the tasks. */
  ghost predicate Consistent(t: Tables) {
    && (forall cid :: cid in t.campaigns ==> cid < t.nextCampaignId)
    && (forall k :: 0 <= k < |t.tasks| ==> t.tasks[k].campaignId in t.campaigns)
    && CountersInStep(t)
  }

  class Database {
    var campaigns: map<nat, Campaign>
    var nextCampaignId: nat
    var lists: map<nat, EmailList>
    var contacts: seq<ListContact>
    var templates: map<nat, Template>
    var tasks: seq<SendTask>
    var quota: map<Day, QuotaRecord>

    /** The current contents of every table. */
    function Snapshot(): Tables
      reads this
    {
      Tables(campaigns, nextCampaignId, lists, contacts, templates, tasks, quota)
    }

    constructor Empty()
      ensures Snapshot() == Tables(map[], 1, map[], [], map[], [], map[])
      ensures Consistent(Snapshot())
    {
      campaigns, nextCampaignId, lists, contacts := map[], 1, map[], [];
      templates, tasks, quota := map[], [], map[];
    }
  }
}
