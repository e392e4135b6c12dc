/** What every run of the campaign operations keeps. */
module CampaignRuns {
  import opened Common
  import Audience
  import opened Campaigns

  function ContactsOf(rs: seq<Recipient>): (ids: seq<ContactId>)
    ensures |ids| == |rs| && forall i :: 0 <= i < |rs| ==> ids[i] == rs[i].contact
  {
    seq(|rs|, i requires 0 <= i < |rs| => rs[i].contact)
  }

  /** Every campaign requires approval, is approved and given a token before it ever leaves the
      draft state (unless it is cancelled), and has no token before. */
  ghost predicate Approved(c: Campaign) {
    && c.requiresApproval
    && (c.status != Draft && c.status != Cancelled ==> c.approvedAt.Some? && c.token.Some?)
    && (c.token.Some? ==> c.status != Draft && c.approvedAt.Some?)
  }

  /** What one operation may do to a campaign: who its recipients are, their bound and its
      parent are fixed; approval is kept; cancelled is final; draft is never re-entered; a new
      token is the one just issued. */
  ghost predicate Evolves(c: Campaign, d: Campaign, issued: Token) {
    && ContactsOf(d.recipients) == ContactsOf(c.recipients)
    && d.maxRecipients == c.maxRecipients && d.parent == c.parent && d.requiresApproval == c.requiresApproval
    && (c.approvedAt.Some? ==> d.approvedAt.Some?)
    && (c.status == Cancelled ==> d.status == Cancelled)
    && (d.status == Draft ==> c.status == Draft)
    && (d.token == c.token || d.token == Some(issued))
  }

  lemma TouchEvolves(c: Campaign, op: Op, issued: Token)
    requires Approved(c)
    ensures Evolves(c, Touch(c, op, issued).0, issued) && Approved(Touch(c, op, issued).0)
  {
    match op
    case RecipientEvent(index, status, externalId) =>
    case _ =>
  }

  /** Distinct recipients, and exactly as many as allowed. */
  ghost predicate Full(c: Campaign) {
    Distinct(ContactsOf(c.recipients)) && |c.recipients| == c.maxRecipients
  }

  ghost predicate Issued(s: State) {
    forall id :: id in s.campaigns ==>
        id < s.next && (s.campaigns[id].token.Some? ==> s.campaigns[id].token.value < s.next)
  }

  /** A follow-up's parent exists, is no draft, and has every contact of the follow-up. */
  ghost predicate Descends(s: State, id: CampaignId)
    requires id in s.campaigns
  {
    s.campaigns[id].parent.Some? ==>
      var p := s.campaigns[id].parent.value;
      && p in s.campaigns && p < id && s.campaigns[p].status != Draft
      && s.campaigns[id].maxRecipients <= s.campaigns[p].maxRecipients
      && forall x :: x in ContactsOf(s.campaigns[id].recipients) ==> x in ContactsOf(s.campaigns[p].recipients)
  }

  ghost predicate Inv(s: State) {
    && Issued(s)
    && forall id {:trigger s.campaigns[id]} :: id in s.campaigns ==>
        Approved(s.campaigns[id]) && Full(s.campaigns[id]) && Descends(s, id)
  }

  // ----- the three shapes of a step

  ghost predicate Added(s: State, t: State, c: Campaign) {
    t.campaigns == s.campaigns[s.next := c] && t.next == s.next + 1
  }

  ghost predicate Changed(s: State, t: State, id: CampaignId) {
    && id in s.campaigns && id in t.campaigns && t.campaigns == s.campaigns[id := t.campaigns[id]]
    && s.next <= t.next && (t.campaigns[id].token != s.campaigns[id].token ==> t.next == s.next + 1)
    && Evolves(s.campaigns[id], t.campaigns[id], s.next) && Approved(t.campaigns[id])
  }

  ghost predicate Removed(s: State, t: State, id: CampaignId) {
    && id in s.campaigns && s.campaigns[id].status == Draft && !HasChildren(s, id)
    && t.campaigns == s.campaigns - {id} && t.next == s.next
  }

  lemma ChangeIsChanged(s: State, id: CampaignId, op: Op)
    requires id in s.campaigns && Approved(s.campaigns[id])
    ensures Changed(s, ChangeOne(s, id, op).0, id)
  {
    TouchEvolves(s.campaigns[id], op, s.next);
  }

  // ----- new campaigns

  lemma CreatedIsFull(s: State, request: Audience.Request, now: Instant)
    requires Audience.Select(s.directory, request).Kept? && |request.recipients| <= 10000
    ensures var kept := Audience.Select(s.directory, request).recipients;
            Full(NewCampaign(NewRecipients(kept), Min(Max(|kept|, 1), 10000), None, now))
  {
    Audience.KeptRecipients(s.directory, request);
    var kept := Audience.Select(s.directory, request).recipients;
    assert ContactsOf(NewRecipients(kept)) == Audience.Contacts(kept);
  }

  /** The schema's cap of 10000 is what keeps the recipient limit out of reach: a campaign just
      created can be approved exactly when no more than 10000 recipients were kept. */
  lemma CapIsExact(s: State, request: Audience.Request, now: Instant, later: Instant)
    requires Apply(s, Create(request, now)).1 == Done
    ensures var approval := Apply(Apply(s, Create(request, now)).0, Change(s.next, Approve(later))).1;
            if |Audience.Select(s.directory, request).recipients| > 10000
            then approval == Refused(RecipientLimitExceeded) else approval == Done
  {
    Audience.KeptRecipients(s.directory, request);
  }

  lemma AppendDistinct(rows: seq<Recipient>, last: Recipient)
    requires Distinct(ContactsOf(rows)) && forall r :: r in rows ==> r.contact != last.contact
    ensures Distinct(ContactsOf(rows + [last]))
  {
    assert ContactsOf(rows + [last]) == ContactsOf(rows) + [last.contact];
    forall i | 0 <= i < |rows| ensures ContactsOf(rows)[i] != last.contact {
      assert rows[i] in rows;
    }
  }

  lemma DistinctFront(rs: seq<Recipient>)
    requires rs != [] && Distinct(ContactsOf(rs))
    ensures Distinct(ContactsOf(rs[..|rs| - 1]))
    ensures forall r :: r in rs[..|rs| - 1] ==> r.contact != rs[|rs| - 1].contact
  {
    var front := rs[..|rs| - 1];
    assert ContactsOf(front) == ContactsOf(rs)[..|rs| - 1];
    forall r | r in front ensures r.contact != rs[|rs| - 1].contact {
      var k :| 0 <= k < |front| && front[k] == r;
      assert ContactsOf(rs)[k] != ContactsOf(rs)[|rs| - 1];
    }
  }

  lemma {:induction false} RowsAreSubsequence(rs: seq<Recipient>, kind: FollowUpType, d: Audience.Directory)
    requires Distinct(ContactsOf(rs))
    ensures Distinct(ContactsOf(Rows(rs, kind, d)))
    ensures |Rows(rs, kind, d)| <= |rs|
    ensures forall r :: r in Rows(rs, kind, d) <==> r in rs && IsRow(r, kind, d)
  {
    if rs != [] {
      var front, last := rs[..|rs| - 1], rs[|rs| - 1];
      assert rs == front + [last];
      DistinctFront(rs);
      RowsAreSubsequence(front, kind, d);
      if IsRow(last, kind, d) {
        AppendDistinct(Rows(front, kind, d), last);
      }
    }
  }

  lemma FollowUpIsFull(p: Campaign, kind: FollowUpType, d: Audience.Directory, parent: CampaignId, now: Instant)
    requires Full(p)
    ensures var rows := Rows(p.recipients, kind, d);
            var c := NewCampaign(Renewed(rows), Min(|rows|, p.maxRecipients), Some(parent), now);
            && Full(c) && c.maxRecipients <= p.maxRecipients
            && forall x :: x in ContactsOf(c.recipients) ==> x in ContactsOf(p.recipients)
  {
    RowsAreSubsequence(p.recipients, kind, d);
    var rows := Rows(p.recipients, kind, d);
    assert ContactsOf(Renewed(rows)) == ContactsOf(rows);
    forall x | x in ContactsOf(rows) ensures x in ContactsOf(p.recipients) {
      var i :| 0 <= i < |rows| && ContactsOf(rows)[i] == x;
      assert rows[i] in rows && rows[i] in p.recipients;
      var k :| 0 <= k < |p.recipients| && p.recipients[k] == rows[i];
      assert ContactsOf(p.recipients)[k] == x;
    }
  }

  // ----- every step keeps the invariant

  lemma AddingKeepsInv(s: State, t: State, c: Campaign)
    requires Inv(s) && Added(s, t, c) && Full(c) && Approved(c) && c.token.None?
    requires c.parent.Some? ==>
               && c.parent.value in s.campaigns && s.campaigns[c.parent.value].status != Draft
               && c.maxRecipients <= s.campaigns[c.parent.value].maxRecipients
               && forall x :: x in ContactsOf(c.recipients) ==> x in ContactsOf(s.campaigns[c.parent.value].recipients)
    ensures Inv(t)
  {
    forall id | id in t.campaigns ensures Descends(t, id) {
      if id in s.campaigns {
        assert Descends(s, id);
      }
    }
  }

  lemma ChangingKeepsInv(s: State, t: State, id: CampaignId)
    requires Inv(s) && Changed(s, t, id)
    ensures Inv(t)
  {
    assert ContactsOf(t.campaigns[id].recipients) == ContactsOf(s.campaigns[id].recipients);
    assert |ContactsOf(t.campaigns[id].recipients)| == |t.campaigns[id].recipients|;
    forall k | k in t.campaigns ensures Descends(t, k) {
      assert Descends(s, k);
    }
  }

  lemma RemovingKeepsInv(s: State, t: State, id: CampaignId)
    requires Inv(s) && Removed(s, t, id)
    ensures Inv(t)
  {
    forall k | k in t.campaigns ensures Descends(t, k) {
      assert Descends(s, k);
      assert s.campaigns[k].parent != Some(id);
    }
  }

  /** The schema's cap on a creation request. */
  ghost predicate Capped(step: Step) {
    step.Create? ==> |step.request.recipients| <= 10000
  }

  lemma StepKeepsInv(s: State, step: Step)
    requires Inv(s) && Capped(step)
    ensures Inv(Apply(s, step).0)
  {
    var t := Apply(s, step).0;
    if t.campaigns == s.campaigns && t.next == s.next {
      SameTableKeepsInv(s, t);
    } else {
      match step
      case Create(request, now) =>
        CreatedIsFull(s, request, now);
        AddingKeepsInv(s, t, t.campaigns[s.next]);
      case FollowUp(parent, kind, enabled, now) =>
        FollowUpIsFull(s.campaigns[parent], kind.value, s.directory, parent, now);
        AddingKeepsInv(s, t, t.campaigns[s.next]);
      case Change(id, op) =>
        ChangeIsChanged(s, id, op);
        ChangingKeepsInv(s, t, id);
      case DeleteDraft(id) =>
        RemovingKeepsInv(s, t, id);
    }
  }

  lemma SameTableKeepsInv(s: State, t: State)
    requires Inv(s) && t.campaigns == s.campaigns && t.next == s.next
    ensures Inv(t)
  {
    forall id | id in t.campaigns ensures Descends(t, id) {
      assert Descends(s, id);
    }
  }

  ghost predicate AllCapped(steps: seq<Step>) {
    forall i :: 0 <= i < |steps| ==> Capped(steps[i])
  }

  lemma {:induction false} RunKeepsInv(s: State, steps: seq<Step>)
    requires Inv(s) && AllCapped(steps)
    ensures Inv(Run(s, steps))
    decreases |steps|
  {
    if steps != [] {
      assert Capped(steps[0]);
      StepKeepsInv(s, steps[0]);
      RunKeepsInv(Apply(s, steps[0]).0, steps[1..]);
    }
  }

  // ----- the main results, for every run from an empty table

  ghost function Empty(d: Audience.Directory): State {
    State(map[], d, 0)
  }

  /** Every campaign requires approval, and one that is neither draft nor cancelled has been
      approved, and started under some token. */
  lemma StartedMeansApproved(d: Audience.Directory, steps: seq<Step>, id: CampaignId)
    requires AllCapped(steps) && id in Run(Empty(d), steps).campaigns
    ensures var c := Run(Empty(d), steps).campaigns[id];
            c.requiresApproval && (c.status != Draft && c.status != Cancelled ==> c.approvedAt.Some? && c.token.Some?)
  {
    RunKeepsInv(Empty(d), steps);
    assert Approved(Run(Empty(d), steps).campaigns[id]);
  }

  /** Across all generations of follow-ups: distinct contacts, exactly max_recipients of them,
      never more than the parent's and all among the parent's; so approving or starting never
      meets the recipient limit, and deleting a draft never meets its follow-ups. */
  lemma LimitsAreUnreachable(d: Audience.Directory, steps: seq<Step>, id: CampaignId, now: Instant, withinTier: bool)
    requires AllCapped(steps)
    ensures var s := Run(Empty(d), steps);
            && (id in s.campaigns ==> Full(s.campaigns[id]) && Descends(s, id))
            && Apply(s, Change(id, Approve(now))).1 != Refused(RecipientLimitExceeded)
            && Apply(s, Change(id, Start(withinTier))).1 != Refused(RecipientLimitExceeded)
            && Apply(s, DeleteDraft(id)).1 != Refused(HasFollowUps)
  {
    RunKeepsInv(Empty(d), steps);
    var s := Run(Empty(d), steps);
    if id in s.campaigns {
      assert Full(s.campaigns[id]);
      if HasChildren(s, id) {
        var k :| k in s.campaigns && s.campaigns[k].parent == Some(id);
        assert Descends(s, k);
      }
    }
  }

  // ----- ancestors

  ghost predicate IsLineage(s: State, line: seq<CampaignId>) {
    && line != [] && (forall i :: 0 <= i < |line| ==> line[i] in s.campaigns)
    && forall i :: 0 <= i < |line| - 1 ==> s.campaigns[line[i + 1]].parent == Some(line[i])
  }

  /** Every descendant, however remote, keeps within its ancestor's contacts and bound. */
  lemma {:induction false} LineageInherits(s: State, line: seq<CampaignId>)
    requires Inv(s) && IsLineage(s, line)
    ensures var a, z := s.campaigns[line[0]], s.campaigns[line[|line| - 1]];
            && z.maxRecipients <= a.maxRecipients
            && forall x :: x in ContactsOf(z.recipients) ==> x in ContactsOf(a.recipients)
    decreases |line|
  {
    if |line| > 1 {
      var front := line[..|line| - 1];
      LineageInherits(s, front);
      assert s.campaigns[line[|line| - 2 + 1]].parent == Some(line[|line| - 2]);
      assert Descends(s, line[|line| - 1]);
    }
  }

  // ----- cancellation

  ghost predicate IsCancelled(s: State, id: CampaignId) {
    id in s.campaigns && id < s.next && s.campaigns[id].status == Cancelled
  }

  /** A cancelled campaign stays in the table and stays cancelled, whatever happens. */
  lemma {:induction false} CancelledForever(s: State, steps: seq<Step>, id: CampaignId)
    requires Inv(s) && AllCapped(steps) && IsCancelled(s, id)
    ensures IsCancelled(Run(s, steps), id)
    decreases |steps|
  {
    if steps != [] {
      assert Capped(steps[0]);
      StepKeepsInv(s, steps[0]);
      if steps[0].Change? && steps[0].id in s.campaigns {
        ChangeIsChanged(s, steps[0].id, steps[0].op);
      }
      CancelledForever(Apply(s, steps[0]).0, steps[1..], id);
    }
  }

  // ----- execution tokens

  /** The token was handed out once, and no campaign carries it any more. */
  ghost predicate Superseded(s: State, token: Token) {
    token < s.next && forall id :: id in s.campaigns ==> s.campaigns[id].token != Some(token)
  }

  lemma StepKeepsSuperseded(s: State, step: Step, token: Token)
    requires Inv(s) && Superseded(s, token)
    ensures Superseded(Apply(s, step).0, token)
  {
    var t := Apply(s, step).0;
    if step.Change? && step.id in s.campaigns {
      ChangeIsChanged(s, step.id, step.op);
    }
  }

  /** An execution token once superseded never becomes current again, and a task still holding
      it can no longer begin or finish anything: both writes are refused and change nothing. */
  lemma {:induction false} SupersededForever(s: State, steps: seq<Step>, token: Token,
                                             id: CampaignId, configured: bool, now: Instant, anyFailed: bool)
    requires Inv(s) && AllCapped(steps) && Superseded(s, token)
    ensures var t := Run(s, steps);
            && Superseded(t, token)
            && Apply(t, Change(id, WorkerBegin(token, configured, now))).0 == t
            && Apply(t, Change(id, WorkerFinish(token, anyFailed))).0 == t
    decreases |steps|
  {
    if steps == [] {
      if id in s.campaigns {
        assert s.campaigns[id := s.campaigns[id]] == s.campaigns;
      }
    } else {
      assert Capped(steps[0]);
      StepKeepsInv(s, steps[0]);
      StepKeepsSuperseded(s, steps[0], token);
      SupersededForever(Apply(s, steps[0]).0, steps[1..], token, id, configured, now, anyFailed);
    }
  }

  /** No two campaigns carry one token. */
  ghost predicate UniqueTokens(s: State) {
    forall a, b :: a in s.campaigns && b in s.campaigns && s.campaigns[a].token.Some? ==>
      s.campaigns[a].token == s.campaigns[b].token ==> a == b
  }

  /** Starting, recovering or retrying supersedes the token the campaign had. */
  lemma NewTokenSupersedes(s: State, id: CampaignId, op: Op)
    requires Inv(s) && UniqueTokens(s) && id in s.campaigns && s.campaigns[id].token.Some?
    requires Apply(s, Change(id, op)).1 == Done && (op.Start? || op.Recover? || op.Retry?)
    ensures Superseded(Apply(s, Change(id, op)).0, s.campaigns[id].token.value)
  {
    ChangeIsChanged(s, id, op);
  }

  lemma StepKeepsUniqueTokens(s: State, step: Step)
    requires Inv(s) && UniqueTokens(s)
    ensures UniqueTokens(Apply(s, step).0)
  {
    if step.Change? && step.id in s.campaigns {
      ChangeIsChanged(s, step.id, step.op);
    }
  }

  lemma {:induction false} RunKeepsUniqueTokens(s: State, steps: seq<Step>)
    requires Inv(s) && AllCapped(steps) && UniqueTokens(s)
    ensures UniqueTokens(Run(s, steps))
    decreases |steps|
  {
    if steps != [] {
      assert Capped(steps[0]);
      StepKeepsInv(s, steps[0]);
      StepKeepsUniqueTokens(s, steps[0]);
      RunKeepsUniqueTokens(Apply(s, steps[0]).0, steps[1..]);
    }
  }

  // ----- retry

  predicate Sendable(r: Recipient) {
    r.status == Pending || r.status == Queued
  }

  /** count_sendable_recipients */
  ghost function CountSendable(rs: seq<Recipient>): nat {
    if rs == [] then 0 else CountSendable(rs[..|rs| - 1]) + if Sendable(rs[|rs| - 1]) then 1 else 0
  }

  ghost function CountFailed(rs: seq<Recipient>): nat {
    if rs == [] then 0 else CountFailed(rs[..|rs| - 1]) + if rs[|rs| - 1].status == SendFailed then 1 else 0
  }

  /** A retry turns exactly the failed recipients into sendable ones and leaves no failure. */
  lemma {:induction false} RetryMovesFailed(rs: seq<Recipient>)
    ensures CountSendable(ResetAll(rs)) == CountSendable(rs) + CountFailed(rs)
    ensures CountFailed(ResetAll(rs)) == 0
    ensures AnyFailed(rs) <==> CountFailed(rs) > 0
  {
    if rs != [] {
      var front := rs[..|rs| - 1];
      assert ResetAll(rs)[..|rs| - 1] == ResetAll(front);
      RetryMovesFailed(front);
      if i :| 0 <= i < |rs| && rs[i].status == SendFailed {
        assert i < |front| ==> front[i].status == SendFailed;
      }
      if AnyFailed(front) {
        var i :| 0 <= i < |front| && front[i].status == SendFailed;
        assert rs[i].status == SendFailed;
      }
    }
  }
}
