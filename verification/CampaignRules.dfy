/** The campaign operations seen from the other side: by status, by field, and by who is reached. */
module CampaignRules {
  import opened Common
  import Audience
  import opened Campaigns
  import opened CampaignRuns

  // ----- the status diagram

  /** Where each status leads, operation by operation, for a campaign within its recipient limit.
      A worker counts only while it holds the campaign's token. */
  ghost function Diagram(c: Campaign, op: Op): Status {
    var begins := op.WorkerBegin? && c.token == Some(op.token);
    var finishes := op.WorkerFinish? && c.token == Some(op.token);
    var begun := if begins && op.configured then Running else Failed;
    var finished := if finishes && op.anyFailed then CompletedWithErrors else Completed;
    var retried := op.Retry? && exists r :: r in c.recipients && r.status == SendFailed;
    match c.status
    case Cancelled => Cancelled
    case Draft =>
      if op == Cancel then Cancelled
      else if op == Start(true) && c.approvedAt.Some? then Scheduled
      else Draft
    case Scheduled =>
      if op == Cancel then Cancelled
      else if op == Pause then Paused
      else if op.Recover? && c.startedAt.None? && op.now - c.createdAt > 180_000_000 then Running
      else if begins then begun
      else if finishes then finished
      else Scheduled
    case Running =>
      if op == Cancel then Cancelled
      else if op == Pause then Paused
      else if begins then begun
      else if finishes then finished
      else Running
    case Paused =>
      if op == Cancel then Cancelled
      else if op == Start(true) then Scheduled
      else if retried then Running
      else if begins then begun
      else Paused
    case Completed =>
      if retried then Running else if begins then begun else if finishes then finished else Completed
    case CompletedWithErrors =>
      if op == Cancel then Cancelled
      else if retried then Running
      else if begins then begun
      else if finishes then finished
      else CompletedWithErrors
    case Failed =>
      if op == Cancel then Cancelled
      else if retried then Running
      else if begins then begun
      else if finishes then finished
      else Failed
  }

  lemma FailedIsIn(rs: seq<Recipient>)
    ensures AnyFailed(rs) <==> exists r :: r in rs && r.status == SendFailed
  {
    if r :| r in rs && r.status == SendFailed {
      var i :| 0 <= i < |rs| && rs[i] == r;
    }
    if AnyFailed(rs) {
      var i :| 0 <= i < |rs| && rs[i].status == SendFailed;
      assert rs[i] in rs;
    }
  }

  /** Every operation moves the status as the diagram says, and no other way. */
  lemma FollowsDiagram(c: Campaign, op: Op, issued: Token)
    requires Approved(c) && Full(c)
    ensures Touch(c, op, issued).0.status == Diagram(c, op)
  {
    match op
    case Retry(_) => FailedIsIn(c.recipients);
    case WorkerBegin(_, _, _) =>
    case WorkerFinish(_, _) =>
    case Recover(_) =>
    case _ =>
  }

  // ----- when an operation is refused

  /** Which error an operation on a campaign raises, error by error. */
  lemma RefusalsExactly(c: Campaign, op: Op, issued: Token)
    requires Approved(c) && Full(c)
    ensures var r := Touch(c, op, issued).1;
            && (r == Refused(CannotBeApproved) <==> op.Approve? && c.status !in {Draft, Paused})
            && (r == Refused(CannotStart) <==> op.Start? && c.status !in {Draft, Scheduled, Paused})
            && (r == Refused(ApprovalRequired) <==> op.Start? && c.status == Draft && c.approvedAt == None)
            && (r == Refused(TierLimitExceeded) <==>
                  op == Start(false) && c.status in {Draft, Scheduled, Paused} && c.approvedAt != None)
            && (r == Refused(CannotPause) <==> op == Pause && c.status !in {Scheduled, Running})
            && (r == Refused(CannotCancel) <==> op == Cancel && c.status in {Completed, Cancelled})
            && (r == Refused(CannotArchive) <==> op.Archive? && c.status in {Draft, Scheduled, Running})
            && (r == Refused(NotArchived) <==> op == Unarchive && c.archivedAt == None)
            && (r == Refused(CannotRetry) <==>
                  op.Retry? && c.status in {Draft, Scheduled, Running, Cancelled})
            && (r == Refused(NoFailedRecipients) <==>
                  && op.Retry? && c.status in {Completed, CompletedWithErrors, Paused, Failed}
                  && forall q :: q in c.recipients ==> q.status != SendFailed)
            && (r == Refused(StaleTask) <==> (op.WorkerBegin? || op.WorkerFinish?) && c.token != Some(op.token))
            && (r.Refused? ==> Touch(c, op, issued).0 == c)
  {
    FailedIsIn(c.recipients);
  }

  // ----- who writes which field

  ghost predicate IsRenewal(c: Campaign, op: Op) {
    || (op == Start(true) && c.status in {Draft, Scheduled, Paused} && c.approvedAt.Some?)
    || (op.Recover? && c.status == Running && c.heartbeatAt.Some? && op.now - c.heartbeatAt.value > 900_000_000)
    || (op.Recover? && c.status == Scheduled && c.startedAt.None? && op.now - c.createdAt > 180_000_000)
    || (op.Retry? && c.status in {Completed, CompletedWithErrors, Paused, Failed}
        && exists r :: r in c.recipients && r.status == SendFailed)
  }

  /** A worker with the current token sets about sending. */
  ghost predicate Begins(c: Campaign, op: Op) {
    op.WorkerBegin? && c.token == Some(op.token) && op.configured && c.status != Cancelled
  }

  /** Approval comes only from approving a draft or paused campaign; the archive mark keeps its
      first time; a new token comes only from a start, a recovery of a campaign silent for more
      than fifteen minutes or waiting for more than three, or a retry; the first
      start of a worker is kept for good; and the heartbeat comes from a worker that begins, a
      recovery or a retry. */
  lemma WritersExactly(c: Campaign, op: Op, issued: Token)
    requires Approved(c) && Full(c)
    ensures var d := Touch(c, op, issued).0;
            && d.approvedAt == (if op.Approve? && c.status in {Draft, Paused} then Some(op.now) else c.approvedAt)
            && d.archivedAt
               == (if op.Archive? && c.archivedAt == None
                      && c.status in {Completed, CompletedWithErrors, Failed, Cancelled, Paused} then Some(op.now)
                   else if op == Unarchive then None
                   else c.archivedAt)
            && d.token == (if IsRenewal(c, op) then Some(issued) else c.token)
            && d.startedAt == (if c.startedAt == None && Begins(c, op) then Some(op.now) else c.startedAt)
            && d.heartbeatAt
               == (if Begins(c, op) || (IsRenewal(c, op) && !op.Start?) then Some(op.now) else c.heartbeatAt)
            && d.createdAt == c.createdAt
  {
    FailedIsIn(c.recipients);
  }

  /** A worker never sends for a campaign that lacks the approval it requires, whatever token it
      holds; nor for a cancelled one. */
  lemma WorkerNeedsApproval(c: Campaign, op: Op, issued: Token)
    requires op.WorkerBegin? && ((c.requiresApproval && c.approvedAt == None) || c.status == Cancelled)
    ensures Touch(c, op, issued).0 == c && Touch(c, op, issued).1 != Done
  {
  }

  /** Only a retry and the events of single recipients touch recipient rows. A retry makes failed
      rows pending and forgets their message; every other row, contact and parameter stays. */
  lemma RowsChangeExactly(c: Campaign, op: Op, issued: Token, i: nat)
    requires i < |c.recipients|
    ensures |Touch(c, op, issued).0.recipients| == |c.recipients|
    ensures var before, after := c.recipients[i], Touch(c, op, issued).0.recipients[i];
            && after.contact == before.contact && after.parameters == before.parameters
            && (!op.Retry? && !(op.RecipientEvent? && op.index == i) ==> after == before)
            && (op.RecipientEvent? && op.index == i ==>
                  after.status == op.status && after.externalId == op.externalId)
            && (op.Retry? && after != before ==>
                  before.status == SendFailed && after.status == Pending && after.externalId == None)
  {
  }

  /** Recovery is for campaigns silent for more than fifteen minutes while running, or not begun
      within three minutes of their creation while scheduled. */
  lemma StuckExactly(c: Campaign, now: Instant)
    ensures IsStuck(c, now) <==>
              || (c.status == Running && c.heartbeatAt != None && now - c.heartbeatAt.value > 900_000_000)
              || (c.status == Scheduled && c.startedAt == None && now - c.createdAt > 180_000_000)
  {
  }

  // ----- creation

  /** A new campaign is a draft that requires approval; its rows are the kept recipients in order,
      pending and unsent, with the parameters asked for. */
  lemma CreatedAsRequested(s: State, request: Audience.Request, now: Instant)
    ensures var (t, r) := Apply(s, Create(request, now));
            && (r == Done <==> Audience.Select(s.directory, request).Kept?)
            && (r == Done ==>
                  && s.next in t.campaigns && t.campaigns == s.campaigns[s.next := t.campaigns[s.next]]
                  && t.campaigns[s.next].status == Draft && t.campaigns[s.next].requiresApproval
                  && t.campaigns[s.next].approvedAt == None && t.campaigns[s.next].token == None
                  && t.campaigns[s.next].parent == None
                  && RowsFor(t.campaigns[s.next].recipients, Audience.Select(s.directory, request).recipients))
  {
  }

  ghost predicate RowsFor(rs: seq<Recipient>, kept: seq<Audience.Candidate>) {
    && |rs| == |kept|
    && forall i :: 0 <= i < |rs| ==>
         && rs[i].contact == kept[i].contact && rs[i].parameters == kept[i].parameters
         && rs[i].status == Pending && rs[i].externalId == None
  }

  // ----- follow-ups

  /** The contact was not deleted since. */
  ghost predicate IsPresent(d: Audience.Directory, id: ContactId) {
    id in d.contacts && !d.contacts[id].deleted
  }

  /** The three types widen one another: failed rows; with them what is sent but not delivered, or
      not sent yet; with these what is delivered but not read. Nobody who read the message, is
      being sent to, or was skipped is ever followed up. */
  lemma FollowUpTypesNest(r: Recipient, d: Audience.Directory)
    ensures IsRow(r, FailedOnly, d) <==> IsPresent(d, r.contact) && r.status == SendFailed
    ensures IsRow(r, FailedOnly, d) ==> IsRow(r, NotDelivered, d)
    ensures IsRow(r, NotDelivered, d) && !IsRow(r, FailedOnly, d) <==>
              IsPresent(d, r.contact) && r.status in {Sent, Pending, Queued}
    ensures IsRow(r, NotDelivered, d) ==> IsRow(r, NotRead, d)
    ensures IsRow(r, NotRead, d) && !IsRow(r, NotDelivered, d) <==>
              IsPresent(d, r.contact) && r.status == Delivered
    ensures r.status in {ReadByContact, Sending, Skipped} ==> forall kind :: !IsRow(r, kind, d)
  {
  }

  /** Still waiting for the outcome the type asks about. */
  ghost predicate IsOutstanding(status: RecipientStatus, kind: FollowUpType) {
    || status == SendFailed
    || (kind != FailedOnly && status in {Sent, Pending, Queued})
    || (kind == NotRead && status == Delivered)
  }

  /** The child reaches exactly the parent's contacts that are present and outstanding; each of its
      rows is pending and unsent, with the parameters of the parent's row. */
  ghost predicate Follows(child: Campaign, p: Campaign, kind: FollowUpType, d: Audience.Directory) {
    && (forall r :: r in child.recipients ==>
          && r.status == Pending && r.externalId == None
          && exists q :: q in p.recipients && q.contact == r.contact && q.parameters == r.parameters
                         && IsPresent(d, q.contact) && IsOutstanding(q.status, kind))
    && forall q :: q in p.recipients && IsPresent(d, q.contact) && IsOutstanding(q.status, kind) ==>
         Recipient(q.contact, Pending, q.parameters, None) in child.recipients
  }

  lemma {:induction false} RowsReach(rs: seq<Recipient>, kind: FollowUpType, d: Audience.Directory)
    ensures forall r :: r in Rows(rs, kind, d) <==>
              r in rs && IsPresent(d, r.contact) && IsOutstanding(r.status, kind)
  {
    if rs != [] {
      var front, last := rs[..|rs| - 1], rs[|rs| - 1];
      assert rs == front + [last];
      RowsReach(front, kind, d);
    }
  }

  lemma RenewedFollows(child: Campaign, p: Campaign, kind: FollowUpType, d: Audience.Directory)
    requires child.recipients == Renewed(Rows(p.recipients, kind, d))
    ensures Follows(child, p, kind, d)
  {
    var rows := Rows(p.recipients, kind, d);
    RowsReach(p.recipients, kind, d);
    forall r | r in child.recipients
      ensures r.status == Pending && r.externalId == None
      ensures exists q :: q in p.recipients && q.contact == r.contact && q.parameters == r.parameters
                          && IsPresent(d, q.contact) && IsOutstanding(q.status, kind)
    {
      var i :| 0 <= i < |rows| && child.recipients[i] == r;
      assert rows[i] in rows;
    }
    forall q | q in rows ensures Recipient(q.contact, Pending, q.parameters, None) in child.recipients {
      var i :| 0 <= i < |rows| && rows[i] == q;
      assert child.recipients[i] in child.recipients;
    }
  }

  /** A follow-up is created exactly when the feature is on, the type is known, the parent is
      finished or paused, and somebody is left to reach; the parent itself stays as it is. */
  lemma FollowUpExactly(s: State, parent: CampaignId, kind: Option<FollowUpType>, enabled: bool, now: Instant)
    requires s.next !in s.campaigns
    ensures var (t, r) := Apply(s, FollowUp(parent, kind, enabled, now));
            && (r == Done <==>
                  && enabled && kind.Some? && parent in s.campaigns
                  && s.campaigns[parent].status in {Completed, CompletedWithErrors, Paused}
                  && exists q :: q in s.campaigns[parent].recipients && IsPresent(s.directory, q.contact)
                                 && IsOutstanding(q.status, kind.value))
            && (r == Done ==>
                  && s.next in t.campaigns && t.campaigns == s.campaigns[s.next := t.campaigns[s.next]]
                  && t.campaigns[s.next].status == Draft && t.campaigns[s.next].requiresApproval
                  && t.campaigns[s.next].approvedAt == None && t.campaigns[s.next].token == None
                  && t.campaigns[s.next].parent == Some(parent)
                  && Follows(t.campaigns[s.next], s.campaigns[parent], kind.value, s.directory))
  {
    if enabled && kind.Some? && parent in s.campaigns {
      var p := s.campaigns[parent];
      var rows := Rows(p.recipients, kind.value, s.directory);
      RowsReach(p.recipients, kind.value, s.directory);
      if rows != [] {
        assert rows[0] in rows;
        RenewedFollows(NewCampaign(Renewed(rows), Min(|rows|, p.maxRecipients), Some(parent), now), p, kind.value,
                       s.directory);
      }
    }
  }

  /** Which error a follow-up raises instead. */
  lemma FollowUpRefusals(s: State, parent: CampaignId, kind: Option<FollowUpType>, enabled: bool, now: Instant)
    ensures var r := Apply(s, FollowUp(parent, kind, enabled, now)).1;
            && (r == Refused(FollowUpsDisabled) <==> !enabled)
            && (r == Refused(InvalidFollowUpType) <==> enabled && kind == None)
            && (r == Refused(NotFound) <==> enabled && kind != None && parent !in s.campaigns)
            && (r == Refused(ParentNotFinished) <==>
                  && enabled && kind != None && parent in s.campaigns
                  && s.campaigns[parent].status in {Draft, Scheduled, Running, Cancelled, Failed})
            && (r.Refused? ==> Apply(s, FollowUp(parent, kind, enabled, now)).0 == s)
  {
  }

  // ----- deletion

  /** A campaign leaves the table only when it is deleted as a draft none of whose rows has a
      message and which has no follow-ups. */
  lemma DeletedExactly(s: State, step: Step, id: CampaignId)
    requires id in s.campaigns && s.next !in s.campaigns
    ensures id !in Apply(s, step).0.campaigns <==>
              && step == DeleteDraft(id) && s.campaigns[id].status == Draft
              && (forall r :: r in s.campaigns[id].recipients ==> r.externalId == None)
              && forall k :: k in s.campaigns ==> s.campaigns[k].parent != Some(id)
  {
    var rs := s.campaigns[id].recipients;
    assert AnySent(rs) <==> exists r :: r in rs && r.externalId != None by {
      if r :| r in rs && r.externalId != None {
        var i :| 0 <= i < |rs| && rs[i] == r;
      }
      if AnySent(rs) {
        var i :| 0 <= i < |rs| && rs[i].externalId.Some?;
        assert rs[i] in rs;
      }
    }
  }

  /** Once past the draft a campaign never disappears and never becomes a draft again. */
  lemma {:induction false} StartedNeverDisappears(s: State, steps: seq<Step>, id: CampaignId)
    requires Inv(s) && AllCapped(steps) && id in s.campaigns && s.campaigns[id].status != Draft
    ensures id in Run(s, steps).campaigns && Run(s, steps).campaigns[id].status != Draft
    decreases |steps|
  {
    if steps != [] {
      assert Capped(steps[0]);
      StepKeepsInv(s, steps[0]);
      if steps[0].Change? && steps[0].id in s.campaigns {
        ChangeIsChanged(s, steps[0].id, steps[0].op);
      }
      StartedNeverDisappears(Apply(s, steps[0]).0, steps[1..], id);
    }
  }

  // ----- pausing

  /** A paused campaign runs again exactly by a start, a retry, or a task that still holds its
      token: pausing does not supersede the token. */
  lemma PausedResumesExactly(c: Campaign, op: Op, issued: Token)
    requires Approved(c) && Full(c) && c.status == Paused
    ensures Touch(c, op, issued).0.status in {Scheduled, Running} <==>
              || op == Start(true)
              || (op.Retry? && exists r :: r in c.recipients && r.status == SendFailed)
              || (op.WorkerBegin? && c.token == Some(op.token) && op.configured)
  {
    FollowsDiagram(c, op, issued);
  }

  lemma DraftPaused(s: State, id: CampaignId, now: Instant) returns (steps: seq<Step>)
    requires id in s.campaigns && s.campaigns[id].status == Draft && Full(s.campaigns[id])
    ensures steps == [Change(id, Approve(now)), Change(id, Start(true)), Change(id, Pause)]
    ensures id in Run(s, steps).campaigns
    ensures Run(s, steps).campaigns[id]
            == s.campaigns[id].(approvedAt := Some(now), status := Paused, token := Run(s, steps).campaigns[id].token)
    ensures Run(s, steps).campaigns[id].token.Some?
  {
    var a, b, c: Step := Change(id, Approve(now)), Change(id, Start(true)), Change(id, Pause);
    var s1 := Apply(s, a).0;
    var s2 := Apply(s1, b).0;
    steps := [a, b, c];
    assert steps[1..] == [b, c] && [b, c][1..] == [c];
    assert Run(s, steps) == Run(s1, [b, c]) == Run(s2, [c]) == Apply(s2, c).0;
  }

  /** Such a run: created, approved, started, and paused before the worker picked up its task. The
      task then runs the campaign all the same. */
  lemma PauseIsLost(s: State, request: Audience.Request, now: Instant) returns (steps: seq<Step>, paused: State)
    requires Audience.Select(s.directory, request).Kept? && |request.recipients| <= 10000
    ensures steps == [Change(s.next, Approve(now)), Change(s.next, Start(true)), Change(s.next, Pause)]
    ensures paused == Run(Apply(s, Create(request, now)).0, steps)
    ensures s.next in paused.campaigns && paused.campaigns[s.next].status == Paused
    ensures paused.campaigns[s.next].token.Some?
    ensures var begin := WorkerBegin(paused.campaigns[s.next].token.value, true, now);
            var (t, r) := Apply(paused, Change(s.next, begin));
            r == Done && s.next in t.campaigns && t.campaigns[s.next].status == Running
  {
    CreatedIsFull(s, request, now);
    var created := Apply(s, Create(request, now)).0;
    steps := DraftPaused(created, s.next, now);
    paused := Run(created, steps);
  }
}
