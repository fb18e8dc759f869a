/** The state logic of controllers/campaignController.js: creating a
    campaign in `draft`, starting it (one pending send task per eligible
    contact, inserted with a parameterised multi-row INSERT, then `active`),
    and the unconditional pause and resume. HTTP status codes are reduced to
    the `Reply` each handler chooses. Start and resume end by calling the
    imported `processAllPendingEmails`, which services/scheduler.js does not
    export: the call throws after the writes are done and the handler
    answers 500. */
module CampaignController {
  import opened Js
  import opened Schema
  import opened Sql

  /** Used when the request gives no (or a zero) daily limit. */
  const DefaultCampaignDailyLimit := 4000

  /** The handler's answer: 201 with the new id, 200, 404, 400 or 500. */
  datatype Reply = Created(id: nat) | Done | NotFound | BadRequest | ServerError

  /** What the name `processAllPendingEmails` imported from the scheduler
      module is bound to: nothing, or a function that runs a pass. */
  datatype TriggerLink = Undefined | Exported

  /** services/scheduler.js exports only `startScheduler`, so the import
      binds nothing. */
  const ImportedTrigger: TriggerLink := Undefined

  /** The answer once the writes of start or resume are done: the trigger
      call either starts a pass in the background, which the handler does
      not wait for, and the handler answers 200; or it throws a TypeError
      inside the `try` and the handler answers 500. */
  function TriggerReply(link: TriggerLink): Reply {
    if link.Exported? then Done else ServerError
  }

  // ---------------------------------------------------------------------
  // createCampaign

  /** The row `createCampaign` inserts. */
  function NewCampaign(name: string, templateId: Option<nat>, listId: nat, totalRecipients: nat,
                       dailyLimit: Option<int>, createdBy: nat): (c: Campaign)
    ensures c.status == Draft && c.sentCount == 0 && c.failedCount == 0
    ensures c.startedAt == None && c.completedAt == None
    ensures c.totalRecipients == totalRecipients
    ensures c.dailyLimit == OrDefault(dailyLimit, DefaultCampaignDailyLimit)
  {
    Campaign(name, templateId, listId, totalRecipients, OrDefault(dailyLimit, DefaultCampaignDailyLimit),
             createdBy, Draft, 0, 0, None, None)
  }

  /** `createCampaign` on the tables: 404 when the list does not exist,
      otherwise a draft campaign under the next serial id whose recipient
      total is the list's current valid count. */
  function CreateCampaignSpec(t: Tables, name: string, templateId: Option<nat>, listId: nat,
                              dailyLimit: Option<int>, userId: nat): (Tables, Reply)
  {
    if listId !in t.lists then (t, NotFound)
    else
      var c := NewCampaign(name, templateId, listId, t.lists[listId].validCount, dailyLimit, userId);
      (t.(campaigns := t.campaigns[t.nextCampaignId := c], nextCampaignId := t.nextCampaignId + 1),
       Created(t.nextCampaignId))
  }

  /** Creating a campaign: an unknown list changes nothing; otherwise the new
      campaign is a draft with the list's valid count as its total and the
      daily limit defaulting to 4000, under an id no campaign had, and
      nothing else changes. */
  lemma CreateCampaignOutcome(t: Tables, name: string, templateId: Option<nat>, listId: nat,
                              dailyLimit: Option<int>, userId: nat)
    requires Consistent(t)
    ensures var (t', reply) := CreateCampaignSpec(t, name, templateId, listId, dailyLimit, userId);
            && (listId !in t.lists ==> reply == NotFound && t' == t)
            && (listId in t.lists ==>
                  && reply.Created?
                  && reply.id !in t.campaigns
                  && t'.campaigns.Keys == t.campaigns.Keys + {reply.id}
                  && (forall cid :: cid in t.campaigns ==> t'.campaigns[cid] == t.campaigns[cid])
                  && t'.campaigns[reply.id].status == Draft
                  && t'.campaigns[reply.id].totalRecipients == t.lists[listId].validCount
                  && t'.campaigns[reply.id].dailyLimit == OrDefault(dailyLimit, DefaultCampaignDailyLimit)
                  && t'.campaigns[reply.id].sentCount == 0 && t'.campaigns[reply.id].failedCount == 0
                  && t'.tasks == t.tasks && t'.lists == t.lists && t'.contacts == t.contacts)
            && Consistent(t')
  {
    if listId in t.lists {
      var id := t.nextCampaignId;
      var (t', _) := CreateCampaignSpec(t, name, templateId, listId, dailyLimit, userId);
      forall k | 0 <= k < |t.tasks| ensures t.tasks[k].campaignId != id {
        assert t.tasks[k].campaignId in t.campaigns;
      }
      CountTasksNone(t.tasks, id, Sent);
      CountTasksNone(t.tasks, id, Failed);
      assert CountersInStep(t');
    }
  }

  // ---------------------------------------------------------------------
  // startCampaign: recipients, the multi-row INSERT, activation

  /** A row of the recipients query: a contact's id and address. */
  datatype ContactRef = ContactRef(id: nat, email: string)

  /** The filter of the recipients query. */
  predicate IsRecipient(c: ListContact, listId: nat) {
    c.listId == listId && c.isValid && !c.isUnsubscribed
  }

  /** `SELECT id, email FROM list_contacts WHERE list_id = $1 AND is_valid
      AND NOT is_unsubscribed` over the first `n` contacts, in id order. */
  function RecipientsBelow(contacts: seq<ListContact>, listId: nat, n: nat): (rs: seq<ContactRef>)
    requires n <= |contacts|
    ensures forall j :: 0 <= j < |rs| ==>
              && 1 <= rs[j].id <= n
              && IsRecipient(contacts[rs[j].id - 1], listId)
              && rs[j].email == contacts[rs[j].id - 1].email
    ensures forall j, j' :: 0 <= j < j' < |rs| ==> rs[j].id < rs[j'].id
  {
    if n == 0 then []
    else
      var rest := RecipientsBelow(contacts, listId, n - 1);
      if IsRecipient(contacts[n - 1], listId) then rest + [ContactRef(n, contacts[n - 1].email)] else rest
  }

  function Recipients(contacts: seq<ListContact>, listId: nat): seq<ContactRef> {
    RecipientsBelow(contacts, listId, |contacts|)
  }

  /** One more contact extends the query's answer by at most that contact. */
  lemma RecipientsStep(contacts: seq<ListContact>, listId: nat, n: nat)
    requires 1 <= n <= |contacts|
    ensures var rest := RecipientsBelow(contacts, listId, n - 1);
            var rs := RecipientsBelow(contacts, listId, n);
            && |rest| <= |rs| && rs[..|rest|] == rest
            && (IsRecipient(contacts[n - 1], listId) ==> |rs| == |rest| + 1 && rs[|rest|].id == n)
  {
  }

  /** No contact that passes the filter is missed by the query. */
  lemma {:induction false} RecipientsComplete(contacts: seq<ListContact>, listId: nat, n: nat, k: nat)
    requires n <= |contacts| && k < n && IsRecipient(contacts[k], listId)
    ensures exists j :: 0 <= j < |RecipientsBelow(contacts, listId, n)| && RecipientsBelow(contacts, listId, n)[j].id == k + 1
    decreases n
  {
    var rest := RecipientsBelow(contacts, listId, n - 1);
    var rs := RecipientsBelow(contacts, listId, n);
    RecipientsStep(contacts, listId, n);
    if k == n - 1 {
      assert rs[|rest|].id == k + 1;
    } else {
      RecipientsComplete(contacts, listId, n - 1, k);
      var j :| 0 <= j < |rest| && rest[j].id == k + 1;
      assert rs[j] == rs[..|rest|][j];
    }
  }

  /** The loop of `startCampaign` that builds the VALUES tuples and the
      parameter list with a running placeholder index. */
  method BuildTaskInsert(cid: nat, recipients: seq<ContactRef>) returns (values: seq<Tuple>, params: seq<Param>)
    ensures NumberedByThrees(values, |recipients|) && |params| == 3 * |recipients|
    ensures forall i :: 0 <= i < |recipients| ==>
              && params[3 * i] == Num(cid)
              && params[3 * i + 1] == Num(recipients[i].id)
              && params[3 * i + 2] == Str(recipients[i].email)
  {
    values, params := [], [];
    var paramIndex := 1;
    for i := 0 to |recipients|
      invariant |values| == i && |params| == 3 * i && paramIndex == 3 * i + 1
      invariant forall j :: 0 <= j < i ==> values[j] == Tuple(3 * j + 1, 3 * j + 2, 3 * j + 3)
      invariant forall j :: 0 <= j < i ==>
                  && params[3 * j] == Num(cid)
                  && params[3 * j + 1] == Num(recipients[j].id)
                  && params[3 * j + 2] == Str(recipients[j].email)
    {
      values := values + [Tuple(paramIndex, paramIndex + 1, paramIndex + 2)];
      params := params + [Num(cid), Num(recipients[i].id), Str(recipients[i].email)];
      paramIndex := paramIndex + 3;
    }
  }

  /** How the database reads one tuple: placeholder `$p` stands for
      `params[p - 1]`; a placeholder out of range or of the wrong kind makes
      the statement fail. */
  function BindTuple(v: Tuple, params: seq<Param>): Option<SendTask> {
    match (Placeholder(v.first, params), Placeholder(v.second, params), Placeholder(v.third, params))
    case (Some(Num(c)), Some(Num(k)), Some(Str(e))) =>
      if c >= 0 && k >= 0 then Some(SendTask(c, Some(k), e, Pending, 0, None, None)) else None
    case _ => None
  }

  /** The rows a multi-row INSERT adds, or `None` if a tuple fails to bind. */
  function BindAll(values: seq<Tuple>, params: seq<Param>): Option<seq<SendTask>> {
    if forall i :: 0 <= i < |values| ==> BindTuple(values[i], params).Some? then
      Some(seq(|values|, i requires 0 <= i < |values| => BindTuple(values[i], params).value))
    else None
  }

  /** The send task created for a recipient. */
  function NewTask(cid: nat, r: ContactRef): SendTask {
    SendTask(cid, Some(r.id), r.email, Pending, 0, None, None)
  }

  /** The tuples and parameters built by `BuildTaskInsert` bind, tuple by
      tuple, to one pending task per recipient carrying the campaign id and
      the recipient's contact id and address. */
  lemma InsertBindsRecipients(cid: nat, recipients: seq<ContactRef>, values: seq<Tuple>, params: seq<Param>)
    requires NumberedByThrees(values, |recipients|) && |params| == 3 * |recipients|
    requires forall i :: 0 <= i < |recipients| ==>
               && params[3 * i] == Num(cid)
               && params[3 * i + 1] == Num(recipients[i].id)
               && params[3 * i + 2] == Str(recipients[i].email)
    ensures BindAll(values, params).Some?
    ensures |BindAll(values, params).value| == |recipients|
    ensures forall i :: 0 <= i < |recipients| ==> BindAll(values, params).value[i] == NewTask(cid, recipients[i])
  {
    forall i | 0 <= i < |values| ensures BindTuple(values[i], params) == Some(NewTask(cid, recipients[i])) {
      assert params[3 * i] == Num(cid);
      assert params[3 * i + 1] == Num(recipients[i].id);
      assert params[3 * i + 2] == Str(recipients[i].email);
    }
  }

  /** The campaign `cid` marked active with the start time. */
  function Activate(campaigns: map<nat, Campaign>, cid: nat, now: Time): map<nat, Campaign>
    requires cid in campaigns
  {
    campaigns[cid := campaigns[cid].(status := Active, startedAt := Some(now))]
  }

  /** The tasks the INSERT of `startCampaign` adds, one per recipient row. */
  function NewTasks(cid: nat, rs: seq<ContactRef>): seq<SendTask> {
    seq(|rs|, j requires 0 <= j < |rs| => NewTask(cid, rs[j]))
  }

  /** `startCampaign` on the tables: 404 for an unknown campaign, 400 unless
      it is a draft; otherwise append one pending task per recipient of its
      list, make it active, and answer as the trigger call lets it. */
  function StartCampaignSpec(t: Tables, cid: nat, now: Time, link: TriggerLink): (Tables, Reply) {
    if cid !in t.campaigns then (t, NotFound)
    else if t.campaigns[cid].status != Draft then (t, BadRequest)
    else
      (t.(tasks := t.tasks + NewTasks(cid, Recipients(t.contacts, t.campaigns[cid].listId)),
          campaigns := Activate(t.campaigns, cid, now)),
       TriggerReply(link))
  }

  /** Starting an unknown campaign, or one that is not a draft, is refused
      and changes nothing; starting a draft keeps every existing task, adds
      the tasks of its recipients after them and makes it active with its
      start time, its other fields unchanged. */
  lemma StartCampaignOutcome(t: Tables, cid: nat, now: Time, link: TriggerLink)
    ensures var (t', reply) := StartCampaignSpec(t, cid, now, link);
            && (cid !in t.campaigns ==> reply == NotFound && t' == t)
            && (cid in t.campaigns && t.campaigns[cid].status != Draft ==> reply == BadRequest && t' == t)
            && (cid in t.campaigns && t.campaigns[cid].status == Draft ==>
                  && reply == TriggerReply(link)
                  && |t'.tasks| >= |t.tasks| && t'.tasks[..|t.tasks|] == t.tasks
                  && t'.tasks[|t.tasks|..] == NewTasks(cid, Recipients(t.contacts, t.campaigns[cid].listId))
                  && t'.campaigns.Keys == t.campaigns.Keys
                  && t'.campaigns[cid] == t.campaigns[cid].(status := Active, startedAt := Some(now))
                  && (forall c :: c in t.campaigns && c != cid ==> t'.campaigns[c] == t.campaigns[c])
                  && t'.contacts == t.contacts && t'.lists == t.lists && t'.quota == t.quota
                  && t'.templates == t.templates && t'.nextCampaignId == t.nextCampaignId)
  {
    if cid in t.campaigns && t.campaigns[cid].status == Draft {
      var t' := StartCampaignSpec(t, cid, now, link).0;
      var added := NewTasks(cid, Recipients(t.contacts, t.campaigns[cid].listId));
      assert t'.tasks == t.tasks + added;
      assert (t.tasks + added)[..|t.tasks|] == t.tasks;
      assert (t.tasks + added)[|t.tasks|..] == added;
    }
  }

  /** Every task `startCampaign` adds is a pending, never attempted task of
      the campaign for a contact of its list that is valid and not
      unsubscribed, addressed to that contact. */
  lemma NewTasksAreForRecipients(contacts: seq<ListContact>, listId: nat, cid: nat)
    ensures var added := NewTasks(cid, Recipients(contacts, listId));
            forall j :: 0 <= j < |added| ==>
              && added[j].campaignId == cid && added[j].status == Pending && added[j].attempts == 0
              && added[j].errorMessage == None && added[j].sentAt == None
              && added[j].contactId.Some? && 1 <= added[j].contactId.value <= |contacts|
              && IsRecipient(contacts[added[j].contactId.value - 1], listId)
              && added[j].email == contacts[added[j].contactId.value - 1].email
  {
    var rs := Recipients(contacts, listId);
    assert forall j :: 0 <= j < |rs| ==> NewTasks(cid, rs)[j] == NewTask(cid, rs[j]);
  }

  /** Every contact of the list that is valid and not unsubscribed gets a
      task. */
  lemma NewTasksCoverRecipients(contacts: seq<ListContact>, listId: nat, cid: nat, k: nat)
    requires k < |contacts| && IsRecipient(contacts[k], listId)
    ensures var added := NewTasks(cid, Recipients(contacts, listId));
            exists j :: 0 <= j < |added| && added[j].contactId == Some(k + 1)
  {
    var rs := Recipients(contacts, listId);
    RecipientsComplete(contacts, listId, |contacts|, k);
    var j :| 0 <= j < |rs| && rs[j].id == k + 1;
    assert NewTasks(cid, rs)[j].contactId == Some(k + 1);
  }

  /** No contact gets two tasks: the added tasks are in increasing contact
      id order. */
  lemma NewTasksOncePerContact(contacts: seq<ListContact>, listId: nat, cid: nat)
    ensures var added := NewTasks(cid, Recipients(contacts, listId));
            forall j, j' :: 0 <= j < j' < |added| ==>
              added[j].contactId.Some? && added[j'].contactId.Some?
              && added[j].contactId.value < added[j'].contactId.value
  {
    var rs := Recipients(contacts, listId);
    assert forall j :: 0 <= j < |rs| ==> NewTasks(cid, rs)[j].contactId == Some(rs[j].id);
  }

  /** Starting a campaign keeps the counters in step: the new tasks are all
      pending and belong to an existing campaign. */
  lemma StartCampaignKeepsConsistent(t: Tables, cid: nat, now: Time, link: TriggerLink)
    requires Consistent(t)
    ensures Consistent(StartCampaignSpec(t, cid, now, link).0)
  {
    if cid in t.campaigns && t.campaigns[cid].status == Draft {
      var added := NewTasks(cid, Recipients(t.contacts, t.campaigns[cid].listId));
      var t' := StartCampaignSpec(t, cid, now, link).0;
      assert t'.tasks == t.tasks + added;
      assert forall j :: 0 <= j < |added| ==> added[j].status == Pending && added[j].campaignId == cid;
      forall c | c in t'.campaigns
        ensures t'.campaigns[c].sentCount == CountTasks(t'.tasks, c, Sent)
        ensures t'.campaigns[c].failedCount == CountTasks(t'.tasks, c, Failed)
      {
        CountTasksAppend(t.tasks, added, c, Sent);
        CountTasksAppend(t.tasks, added, c, Failed);
        CountTasksNone(added, c, Sent);
        CountTasksNone(added, c, Failed);
      }
      forall k | 0 <= k < |t'.tasks| ensures t'.tasks[k].campaignId in t'.campaigns {
        if k >= |t.tasks| {
          assert t'.tasks[k] == added[k - |t.tasks|];
        } else {
          assert t'.tasks[k] == t.tasks[k];
        }
      }
    }
  }

  // ---------------------------------------------------------------------
  // pauseCampaign, resumeCampaign

  /** `UPDATE campaigns SET status = ... WHERE id = $1`: no guard on the
      current status, and no change when the id matches nothing. */
  function WithStatus(t: Tables, cid: nat, status: CampaignStatus): Tables {
    if cid in t.campaigns then t.(campaigns := t.campaigns[cid := t.campaigns[cid].(status := status)]) else t
  }

  /** Pausing or resuming overwrites the status from any prior status (a
      completed campaign is re-activated by resume), touches no counter, no
      timestamp and no task, and keeps the tables consistent. */
  lemma WithStatusOverwrites(t: Tables, cid: nat, status: CampaignStatus)
    requires Consistent(t)
    ensures var t' := WithStatus(t, cid, status);
            && t'.tasks == t.tasks && t'.campaigns.Keys == t.campaigns.Keys
            && (cid in t.campaigns ==> t'.campaigns[cid] == t.campaigns[cid].(status := status))
            && (forall c :: c in t.campaigns && c != cid ==> t'.campaigns[c] == t.campaigns[c])
            && (cid !in t.campaigns ==> t' == t)
            && Consistent(t')
  {
    var t' := WithStatus(t, cid, status);
    assert forall c :: c in t'.campaigns ==>
      t'.campaigns[c].sentCount == t.campaigns[c].sentCount && t'.campaigns[c].failedCount == t.campaigns[c].failedCount;
  }

  /** `resumeCampaign` on the tables: the status write, then the answer
      the trigger call lets it give. */
  function ResumeCampaignSpec(t: Tables, cid: nat, link: TriggerLink): (Tables, Reply) {
    (WithStatus(t, cid, Active), TriggerReply(link))
  }

  /** As written, every start of a draft answers 500 although its tasks
      are inserted and it is active, and every resume answers 500 although
      the campaign is active again; only the refusals answer as intended. */
  lemma StartAndResumeFailAsWritten(t: Tables, cid: nat, now: Time)
    ensures var (t', reply) := StartCampaignSpec(t, cid, now, ImportedTrigger);
            && (reply == ServerError <==> cid in t.campaigns && t.campaigns[cid].status == Draft)
            && (reply == ServerError ==> cid in t'.campaigns && t'.campaigns[cid].status == Active && t' != t)
    ensures var (t', reply) := ResumeCampaignSpec(t, cid, ImportedTrigger);
            && reply == ServerError
            && (cid in t.campaigns ==> cid in t'.campaigns && t'.campaigns[cid].status == Active)
  {
    if cid in t.campaigns && t.campaigns[cid].status == Draft {
      var t' := StartCampaignSpec(t, cid, now, ImportedTrigger).0;
      assert t'.campaigns[cid] != t.campaigns[cid];
    }
  }

  /** With the trigger exported, start answers 200 exactly when it started
      a draft, which is then active, and never 500; resume always answers
      200. */
  lemma StartAndResumeSucceedWhenExported(t: Tables, cid: nat, now: Time)
    ensures var (t', reply) := StartCampaignSpec(t, cid, now, Exported);
            && reply != ServerError
            && (reply == Done <==> cid in t.campaigns && t.campaigns[cid].status == Draft)
            && (reply == Done ==> cid in t'.campaigns && t'.campaigns[cid].status == Active)
    ensures ResumeCampaignSpec(t, cid, Exported).1 == Done
  {
  }

  // ---------------------------------------------------------------------
  // The handlers on the database

  method CreateCampaign(db: Database, name: string, templateId: Option<nat>, listId: nat,
                        dailyLimit: Option<int>, userId: nat) returns (reply: Reply)
    modifies db
    ensures (db.Snapshot(), reply) == CreateCampaignSpec(old(db.Snapshot()), name, templateId, listId, dailyLimit, userId)
  {
    if listId !in db.lists {
      return NotFound;
    }
    var totalRecipients := db.lists[listId].validCount;
    var id := db.nextCampaignId;
    db.campaigns := db.campaigns[id := NewCampaign(name, templateId, listId, totalRecipients, dailyLimit, userId)];
    db.nextCampaignId := id + 1;
    reply := Created(id);
  }

  method StartCampaign(db: Database, cid: nat, now: Time) returns (reply: Reply)
    modifies db
    ensures (db.Snapshot(), reply) == StartCampaignSpec(old(db.Snapshot()), cid, now, ImportedTrigger)
  {
    if cid !in db.campaigns {
      return NotFound;
    }
    var campaign := db.campaigns[cid];
    if campaign.status != Draft {
      return BadRequest;
    }
    var recipients := Recipients(db.contacts, campaign.listId);
    ghost var added := NewTasks(cid, recipients);
    if |recipients| > 0 {
      var values, params := BuildTaskInsert(cid, recipients);
      InsertBindsRecipients(cid, recipients, values, params);
      var rows := BindAll(values, params).value;
      assert rows == added;
      db.tasks := db.tasks + rows;
    } else {
      assert added == [];
      assert db.tasks + added == db.tasks;
    }
    db.campaigns := Activate(db.campaigns, cid, now);
    reply := TriggerReply(ImportedTrigger);
  }

  method PauseCampaign(db: Database, cid: nat) returns (reply: Reply)
    modifies db
    ensures db.Snapshot() == WithStatus(old(db.Snapshot()), cid, Paused)
    ensures reply == Done
  {
    if cid in db.campaigns {
      db.campaigns := db.campaigns[cid := db.campaigns[cid].(status := Paused)];
    }
    reply := Done;
  }

  method ResumeCampaign(db: Database, cid: nat) returns (reply: Reply)
    modifies db
    ensures (db.Snapshot(), reply) == ResumeCampaignSpec(old(db.Snapshot()), cid, ImportedTrigger)
  {
    if cid in db.campaigns {
      db.campaigns := db.campaigns[cid := db.campaigns[cid].(status := Active)];
    }
    reply := TriggerReply(ImportedTrigger);
  }
}
