/** The campaigns table: creating campaigns and follow-ups, the status machine with approval and
    execution tokens, recovery, retry, and the worker's two decisive writes. Each service
    function is one atomic step; ids and tokens come from one counter. */
module Campaigns {
  import opened Common
  import Audience

  type CampaignId = nat
  type ContactId = Audience.ContactId
  type Token = nat
  type Instant = int

  datatype Status = Draft | Scheduled | Running | Completed | CompletedWithErrors | Paused | Cancelled | Failed

  datatype RecipientStatus = Pending | Queued | Sending | Sent | Delivered | ReadByContact | SendFailed | Skipped

  datatype Recipient = Recipient(contact: ContactId, status: RecipientStatus, parameters: seq<string>,
                                 externalId: Option<nat>)

  datatype Campaign = Campaign(
    status: Status,
    requiresApproval: bool,
    approvedAt: Option<Instant>,
    maxRecipients: nat,
    token: Option<Token>,
    createdAt: Instant,
    startedAt: Option<Instant>,
    heartbeatAt: Option<Instant>,
    archivedAt: Option<Instant>,
    parent: Option<CampaignId>,
    recipients: seq<Recipient>)

  /** `next` is above every campaign id and execution token handed out. */
  datatype State = State(campaigns: map<CampaignId, Campaign>, directory: Audience.Directory, next: nat)

  datatype Error =
    | NotFound
    | AudienceRejected(reason: Audience.AudienceError)
    | FollowUpsDisabled
    | InvalidFollowUpType
    | ParentNotFinished
    | NoFollowUpRecipients
    | CannotBeApproved
    | RecipientLimitExceeded
    | CannotStart
    | ApprovalRequired
    | TierLimitExceeded
    | CannotPause
    | CannotCancel
    | CannotArchive
    | NotArchived
    | CannotDelete
    | HasFollowUps
    | CannotRetry
    | NoFailedRecipients
    | NotStale
    | StaleTask
    | WorkerStopped

  datatype Result = Done | Refused(error: Error)

  datatype FollowUpType = NotDelivered | NotRead | FailedOnly

  // ----- one campaign at a time

  datatype Op =
    | Approve(now: Instant)
    /** `withinTier` is what the messaging-tier check of the sending account answers. */
    | Start(withinTier: bool)
    | Pause
    | Cancel
    | Archive(now: Instant)
    | Unarchive
    | Recover(now: Instant)
    | Retry(now: Instant)
    /** A worker picks up the task it was queued with; `configured` is false when the sending
        account or the template is gone. */
    | WorkerBegin(token: Token, configured: bool, now: Instant)
    /** The worker finds nothing left to send and writes the final status. */
    | WorkerFinish(token: Token, anyFailed: bool)
    /** A worker or a delivery webhook updates one recipient row. */
    | RecipientEvent(index: nat, status: RecipientStatus, externalId: Option<nat>)

  const STALE_RUNNING_MICROS: int := 15 * 60 * 1_000_000
  const STALE_SCHEDULED_MICROS: int := 3 * 60 * 1_000_000

  /** recover_stuck_campaigns selects the campaign. */
  predicate IsStuck(c: Campaign, now: Instant) {
    || (c.status == Running && c.heartbeatAt.Some? && c.heartbeatAt.value < now - STALE_RUNNING_MICROS)
    || (c.status == Scheduled && c.startedAt.None? && c.createdAt < now - STALE_SCHEDULED_MICROS)
  }

  predicate Archivable(s: Status) {
    s == Completed || s == CompletedWithErrors || s == Failed || s == Cancelled || s == Paused
  }

  predicate Retriable(s: Status) {
    Finished(s) || s == Failed
  }

  /** A campaign that may have follow-ups. */
  predicate Finished(s: Status) {
    s == Completed || s == CompletedWithErrors || s == Paused
  }

  function ResetFailed(r: Recipient): Recipient {
    if r.status == SendFailed then r.(status := Pending, externalId := None) else r
  }

  function ResetAll(rs: seq<Recipient>): (out: seq<Recipient>)
    ensures |out| == |rs| && forall i :: 0 <= i < |rs| ==> out[i] == ResetFailed(rs[i])
  {
    seq(|rs|, i requires 0 <= i < |rs| => ResetFailed(rs[i]))
  }

  predicate AnyFailed(rs: seq<Recipient>) {
    exists i :: 0 <= i < |rs| && rs[i].status == SendFailed
  }

  ghost function Touch(c: Campaign, op: Op, issued: Token): (Campaign, Result) {
    match op
    case Approve(now) =>
      if c.status != Draft && c.status != Paused then (c, Refused(CannotBeApproved))
      else if |c.recipients| > c.maxRecipients then (c, Refused(RecipientLimitExceeded))
      else (c.(approvedAt := Some(now)), Done)
    case Start(withinTier) =>
      if c.status != Draft && c.status != Scheduled && c.status != Paused then (c, Refused(CannotStart))
      else if c.requiresApproval && c.approvedAt.None? then (c, Refused(ApprovalRequired))
      else if |c.recipients| > c.maxRecipients then (c, Refused(RecipientLimitExceeded))
      else if !withinTier then (c, Refused(TierLimitExceeded))
      else (c.(status := Scheduled, token := Some(issued)), Done)
    case Pause =>
      if c.status != Scheduled && c.status != Running then (c, Refused(CannotPause)) else (c.(status := Paused), Done)
    case Cancel =>
      if c.status == Completed || c.status == Cancelled then (c, Refused(CannotCancel))
      else (c.(status := Cancelled), Done)
    case Archive(now) =>
      if !Archivable(c.status) then (c, Refused(CannotArchive))
      else (if c.archivedAt.None? then c.(archivedAt := Some(now)) else c, Done)
    case Unarchive =>
      if c.archivedAt.None? then (c, Refused(NotArchived)) else (c.(archivedAt := None), Done)
    case Recover(now) =>
      if !IsStuck(c, now) then (c, Refused(NotStale))
      else (c.(status := Running, token := Some(issued), heartbeatAt := Some(now)), Done)
    case Retry(now) =>
      if !Retriable(c.status) then (c, Refused(CannotRetry))
      else if !AnyFailed(c.recipients) then (c, Refused(NoFailedRecipients))
      else (c.(status := Running, token := Some(issued), heartbeatAt := Some(now),
               recipients := ResetAll(c.recipients)), Done)
    case WorkerBegin(token, configured, now) =>
      if c.token != Some(token) then (c, Refused(StaleTask))
      else if c.requiresApproval && c.approvedAt.None? then (c, Refused(ApprovalRequired))
      else if c.status == Cancelled then (c, Refused(WorkerStopped))
      else if !configured then (c.(status := Failed), Done)
      else
        var started := if c.startedAt.Some? then c.startedAt else Some(now);
        (c.(status := Running, startedAt := started, heartbeatAt := Some(now)), Done)
    case WorkerFinish(token, anyFailed) =>
      if c.token != Some(token) then (c, Refused(StaleTask))
      else if c.status == Paused || c.status == Cancelled then (c, Refused(WorkerStopped))
      else (c.(status := if anyFailed then CompletedWithErrors else Completed), Done)
    case RecipientEvent(index, status, externalId) =>
      if index >= |c.recipients| then (c, Refused(NotFound))
      else
        var recipient := c.recipients[index].(status := status, externalId := externalId);
        (c.(recipients := c.recipients[index := recipient]), Done)
  }

  // ----- the table

  datatype Step =
    | Create(request: Audience.Request, now: Instant)
    /** `kind` is None for an unknown follow-up type. */
    | FollowUp(parent: CampaignId, kind: Option<FollowUpType>, enabled: bool, now: Instant)
    | Change(id: CampaignId, op: Op)
    | DeleteDraft(id: CampaignId)
    /** Contacts are added, edited, deleted or messaged elsewhere. */
    | DirectoryChanges(directory: Audience.Directory)

  ghost function ChangeOne(s: State, id: CampaignId, op: Op): (State, Result) {
    if id !in s.campaigns then (s, Refused(NotFound))
    else
      var (c, r) := Touch(s.campaigns[id], op, s.next);
      var next := if c.token == s.campaigns[id].token then s.next else s.next + 1;
      (s.(campaigns := s.campaigns[id := c], next := next), r)
  }

  function NewRecipients(kept: seq<Audience.Candidate>): (rs: seq<Recipient>)
    ensures |rs| == |kept| && forall i :: 0 <= i < |kept| ==> rs[i].contact == kept[i].contact
  {
    seq(|kept|, i requires 0 <= i < |kept| => Recipient(kept[i].contact, Pending, kept[i].parameters, None))
  }

  function NewCampaign(recipients: seq<Recipient>, max: nat, parent: Option<CampaignId>, now: Instant): Campaign {
    Campaign(Draft, true, None, max, None, now, None, None, None, parent, recipients)
  }

  ghost function CreateCampaign(s: State, request: Audience.Request, now: Instant): (State, Result) {
    var selection := Audience.Select(s.directory, request);
    if selection.Rejected? then (s, Refused(AudienceRejected(selection.error)))
    else
      var kept := selection.recipients;
      var max := Min(Max(|kept|, 1), 10000);
      var c := NewCampaign(NewRecipients(kept), max, None, now);
      (s.(campaigns := s.campaigns[s.next := c], next := s.next + 1), Done)
  }

  predicate Targeted(kind: FollowUpType, status: RecipientStatus) {
    match kind
    case NotDelivered => status == Sent || status == SendFailed || status == Pending || status == Queued
    case NotRead =>
      status == Sent || status == Delivered || status == SendFailed || status == Pending || status == Queued
    case FailedOnly => status == SendFailed
  }

  predicate StillThere(d: Audience.Directory, id: ContactId) {
    id in d.contacts && !d.contacts[id].deleted
  }

  predicate IsRow(r: Recipient, kind: FollowUpType, d: Audience.Directory) {
    Targeted(kind, r.status) && StillThere(d, r.contact)
  }

  /** The parent's recipients a follow-up goes to, in order. */
  function Rows(rs: seq<Recipient>, kind: FollowUpType, d: Audience.Directory): seq<Recipient> {
    if rs == [] then []
    else
      var last := rs[|rs| - 1];
      Rows(rs[..|rs| - 1], kind, d) + if IsRow(last, kind, d) then [last] else []
  }

  function Renewed(rows: seq<Recipient>): (rs: seq<Recipient>)
    ensures |rs| == |rows| && forall i :: 0 <= i < |rows| ==>
        rs[i] == Recipient(rows[i].contact, Pending, rows[i].parameters, None)
  {
    seq(|rows|, i requires 0 <= i < |rows| => Recipient(rows[i].contact, Pending, rows[i].parameters, None))
  }

  ghost function CreateFollowUp(s: State, parent: CampaignId, kind: Option<FollowUpType>, enabled: bool,
                                now: Instant): (State, Result) {
    if !enabled then (s, Refused(FollowUpsDisabled))
    else if kind.None? then (s, Refused(InvalidFollowUpType))
    else if parent !in s.campaigns then (s, Refused(NotFound))
    else
      var p := s.campaigns[parent];
      var rows := Rows(p.recipients, kind.value, s.directory);
      if !Finished(p.status) then (s, Refused(ParentNotFinished))
      else if rows == [] then (s, Refused(NoFollowUpRecipients))
      else
        var c := NewCampaign(Renewed(rows), Min(|rows|, p.maxRecipients), Some(parent), now);
        (s.(campaigns := s.campaigns[s.next := c], next := s.next + 1), Done)
  }

  ghost predicate HasChildren(s: State, id: CampaignId) {
    exists k :: k in s.campaigns && s.campaigns[k].parent == Some(id)
  }

  predicate AnySent(rs: seq<Recipient>) {
    exists i :: 0 <= i < |rs| && rs[i].externalId.Some?
  }

  ghost function DeleteDraftCampaign(s: State, id: CampaignId): (State, Result) {
    if id !in s.campaigns then (s, Refused(NotFound))
    else if s.campaigns[id].status != Draft || AnySent(s.campaigns[id].recipients) then (s, Refused(CannotDelete))
    else if HasChildren(s, id) then (s, Refused(HasFollowUps))
    else (s.(campaigns := s.campaigns - {id}), Done)
  }

  ghost function Apply(s: State, step: Step): (State, Result) {
    match step
    case Create(request, now) => CreateCampaign(s, request, now)
    case FollowUp(parent, kind, enabled, now) => CreateFollowUp(s, parent, kind, enabled, now)
    case Change(id, op) => ChangeOne(s, id, op)
    case DeleteDraft(id) => DeleteDraftCampaign(s, id)
    case DirectoryChanges(directory) => (s.(directory := directory), Done)
  }

  ghost function Run(s: State, steps: seq<Step>): State
    decreases |steps|
  {
    if steps == [] then s else Run(Apply(s, steps[0]).0, steps[1..])
  }

  lemma {:induction false} RunAppend(s: State, steps: seq<Step>, step: Step)
    ensures Run(s, steps + [step]) == Apply(Run(s, steps), step).0
    decreases |steps|
  {
    if steps == [] {
      assert steps + [step] == [step];
    } else {
      assert (steps + [step])[1..] == steps[1..] + [step];
      RunAppend(Apply(s, steps[0]).0, steps[1..], step);
    }
  }
}
