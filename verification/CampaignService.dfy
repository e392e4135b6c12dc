/** The campaign service functions as they update the table in place, each proved to be the
    step of the same name in Campaigns. */
module CampaignService {
  import opened Common
  import Audience
  import opened Campaigns

  class CampaignDesk {
    var campaigns: map<CampaignId, Campaign>
    var directory: Audience.Directory
    var next: nat

    ghost function View(): State
      reads this
    {
      State(campaigns, directory, next)
    }

    constructor (directory: Audience.Directory)
      ensures View() == State(map[], directory, 0)
    {
      this.campaigns, this.directory, next := map[], directory, 0;
    }

    method Insert(c: Campaign)
      modifies this`campaigns, this`next
      ensures campaigns == old(campaigns)[old(next) := c] && next == old(next) + 1
    {
      campaigns := campaigns[next := c];
      next := next + 1;
    }

    method CreateCampaign(request: Audience.Request, now: Instant) returns (r: Result)
      modifies this`campaigns, this`next
      ensures (View(), r) == Apply(old(View()), Create(request, now))
    {
      var selection := Audience.SelectRecipients(directory, request);
      if selection.Rejected? {
        return Refused(AudienceRejected(selection.error));
      }
      var kept := selection.recipients;
      Insert(NewCampaign(NewRecipients(kept), Min(Max(|kept|, 1), 10000), None, now));
      return Done;
    }

    /** The parent's targeted recipients whose contacts are still there. */
    method SelectRows(rs: seq<Recipient>, kind: FollowUpType) returns (rows: seq<Recipient>)
      ensures rows == Rows(rs, kind, directory)
    {
      rows := [];
      for i := 0 to |rs|
        invariant rows == Rows(rs[..i], kind, directory)
      {
        assert rs[..i + 1][..i] == rs[..i];
        if IsRow(rs[i], kind, directory) {
          rows := rows + [rs[i]];
        }
      }
      assert rs[..|rs|] == rs;
    }

    method CreateFollowUpCampaign(parent: CampaignId, kind: Option<FollowUpType>, enabled: bool, now: Instant)
      returns (r: Result)
      modifies this`campaigns, this`next
      ensures (View(), r) == Apply(old(View()), FollowUp(parent, kind, enabled, now))
    {
      if !enabled {
        return Refused(FollowUpsDisabled);
      }
      if kind.None? {
        return Refused(InvalidFollowUpType);
      }
      if parent !in campaigns {
        return Refused(NotFound);
      }
      var p := campaigns[parent];
      if !Finished(p.status) {
        return Refused(ParentNotFinished);
      }
      var rows := SelectRows(p.recipients, kind.value);
      if rows == [] {
        return Refused(NoFollowUpRecipients);
      }
      var recipients: seq<Recipient> := [];
      for i := 0 to |rows|
        invariant recipients == Renewed(rows[..i])
      {
        recipients := recipients + [Recipient(rows[i].contact, Pending, rows[i].parameters, None)];
      }
      assert rows[..|rows|] == rows;
      Insert(NewCampaign(recipients, Min(|rows|, p.maxRecipients), Some(parent), now));
      return Done;
    }

    method ApproveCampaign(id: CampaignId, now: Instant) returns (r: Result)
      modifies this`campaigns
      ensures (View(), r) == Apply(old(View()), Change(id, Approve(now)))
    {
      if id !in campaigns {
        return Refused(NotFound);
      }
      var c := campaigns[id];
      Unwritten(campaigns, id);
      if c.status != Draft && c.status != Paused {
        return Refused(CannotBeApproved);
      }
      if |c.recipients| > c.maxRecipients {
        return Refused(RecipientLimitExceeded);
      }
      campaigns := campaigns[id := c.(approvedAt := Some(now))];
      return Done;
    }

    /** Writing a row back unchanged leaves the table as it was. */
    lemma Unwritten(table: map<CampaignId, Campaign>, id: CampaignId)
      requires id in table
      ensures table[id := table[id]] == table
    {
    }

    method NewToken() returns (token: Token)
      modifies this`next
      ensures token == old(next) && next == old(next) + 1
    {
      token := next;
      next := next + 1;
    }

    /** Tokens in use were handed out by this desk. */
    ghost predicate TokensIssued()
      reads this
    {
      forall id :: id in campaigns && campaigns[id].token.Some? ==> campaigns[id].token.value < next
    }

    method PrepareCampaignStart(id: CampaignId, withinTier: bool) returns (r: Result)
      requires TokensIssued()
      modifies this`campaigns, this`next
      ensures (View(), r) == Apply(old(View()), Change(id, Start(withinTier)))
    {
      if id !in campaigns {
        return Refused(NotFound);
      }
      var c := campaigns[id];
      Unwritten(campaigns, id);
      if c.status != Draft && c.status != Scheduled && c.status != Paused {
        return Refused(CannotStart);
      }
      if c.requiresApproval && c.approvedAt.None? {
        return Refused(ApprovalRequired);
      }
      if |c.recipients| > c.maxRecipients {
        return Refused(RecipientLimitExceeded);
      }
      if !withinTier {
        return Refused(TierLimitExceeded);
      }
      var token := NewToken();
      campaigns := campaigns[id := c.(status := Scheduled, token := Some(token))];
      return Done;
    }

    method PauseCampaign(id: CampaignId) returns (r: Result)
      modifies this`campaigns
      ensures (View(), r) == Apply(old(View()), Change(id, Pause))
    {
      if id !in campaigns {
        return Refused(NotFound);
      }
      Unwritten(campaigns, id);
      if campaigns[id].status != Scheduled && campaigns[id].status != Running {
        return Refused(CannotPause);
      }
      campaigns := campaigns[id := campaigns[id].(status := Paused)];
      return Done;
    }

    method CancelCampaign(id: CampaignId) returns (r: Result)
      modifies this`campaigns
      ensures (View(), r) == Apply(old(View()), Change(id, Cancel))
    {
      if id !in campaigns {
        return Refused(NotFound);
      }
      Unwritten(campaigns, id);
      if campaigns[id].status == Completed || campaigns[id].status == Cancelled {
        return Refused(CannotCancel);
      }
      campaigns := campaigns[id := campaigns[id].(status := Cancelled)];
      return Done;
    }

    method ArchiveCampaign(id: CampaignId, now: Instant) returns (r: Result)
      modifies this`campaigns
      ensures (View(), r) == Apply(old(View()), Change(id, Archive(now)))
    {
      if id !in campaigns {
        return Refused(NotFound);
      }
      Unwritten(campaigns, id);
      if !Archivable(campaigns[id].status) {
        return Refused(CannotArchive);
      }
      if campaigns[id].archivedAt.None? {
        campaigns := campaigns[id := campaigns[id].(archivedAt := Some(now))];
      }
      return Done;
    }

    method UnarchiveCampaign(id: CampaignId) returns (r: Result)
      modifies this`campaigns
      ensures (View(), r) == Apply(old(View()), Change(id, Unarchive))
    {
      if id !in campaigns {
        return Refused(NotFound);
      }
      Unwritten(campaigns, id);
      if campaigns[id].archivedAt.None? {
        return Refused(NotArchived);
      }
      campaigns := campaigns[id := campaigns[id].(archivedAt := None)];
      return Done;
    }

    method DeleteDraftCampaign(id: CampaignId) returns (r: Result)
      modifies this`campaigns
      ensures (View(), r) == Apply(old(View()), DeleteDraft(id))
    {
      if id !in campaigns {
        return Refused(NotFound);
      }
      if campaigns[id].status != Draft || AnySent(campaigns[id].recipients) {
        return Refused(CannotDelete);
      }
      if k :| k in campaigns && campaigns[k].parent == Some(id) {
        return Refused(HasFollowUps);
      }
      campaigns := campaigns - {id};
      return Done;
    }

    /** What recovery makes of a campaign. */
    function Recovered(c: Campaign, token: Token, now: Instant): Campaign {
      c.(status := Running, heartbeatAt := Some(now), token := Some(token))
    }

    /** One iteration of the recovery loop. */
    method RecoverOne(id: CampaignId, now: Instant)
      requires TokensIssued() && id in campaigns && IsStuck(campaigns[id], now)
      modifies this`campaigns, this`next
      ensures TokensIssued() && next == old(next) + 1
      ensures View() == Apply(old(View()), Change(id, Recover(now))).0
      ensures campaigns == old(campaigns)[id := Recovered(old(campaigns)[id], old(next), now)]
    {
      RecoverOneIsStep(View(), id, now);
      var token := NewToken();
      campaigns := campaigns[id := campaigns[id].(token := Some(token), status := Scheduled)];
      campaigns := campaigns[id := campaigns[id].(status := Running, heartbeatAt := Some(now))];
      assert campaigns == old(campaigns)[id := Recovered(old(campaigns)[id], token, now)];
    }

    /** An iteration is the Recover step of the state machine. */
    lemma RecoverOneIsStep(s: State, id: CampaignId, now: Instant)
      requires id in s.campaigns && IsStuck(s.campaigns[id], now) && s.campaigns[id].token != Some(s.next)
      ensures Apply(s, Change(id, Recover(now)))
              == (s.(campaigns := s.campaigns[id := Recovered(s.campaigns[id], s.next, now)], next := s.next + 1), Done)
    {
    }

    lemma RecoverNext(before: map<CampaignId, Campaign>, mid: map<CampaignId, Campaign>,
                      ids: seq<CampaignId>, n: nat, token: Token, now: Instant)
      requires RecoveredInOrder(before, mid, ids, n, token, now) && n < |ids| && ids[n] in before
      ensures mid[ids[n]] == before[ids[n]]
      ensures RecoveredInOrder(before, mid[ids[n] := Recovered(mid[ids[n]], token + n, now)], ids, n + 1, token, now)
    {
    }

    /** The running rows, then the scheduled ones not among them. */
    method MergeRows(running: seq<CampaignId>, scheduled: seq<CampaignId>) returns (rows: seq<CampaignId>)
      requires Distinct(running) && Distinct(scheduled)
      ensures Distinct(rows) && running <= rows && |rows| <= |running| + |scheduled|
      ensures forall id :: id in rows <==> id in running || id in scheduled
    {
      rows := running;
      for i := 0 to |scheduled|
        invariant Distinct(rows) && running <= rows && |rows| <= |running| + i
        invariant forall id :: id in rows <==> id in running || id in scheduled[..i]
      {
        assert scheduled[..i + 1] == scheduled[..i] + [scheduled[i]];
        if scheduled[i] !in running {
          assert scheduled[i] !in scheduled[..i];
          rows := rows + [scheduled[i]];
        }
      }
      assert scheduled[..|scheduled|] == scheduled;
    }

    /** recover_stuck_campaigns over the rows its two queries return: at most `limit` of them
        are recovered, running ones first, each under a token of its own, and no other campaign
        is touched. */
    method RecoverStuckCampaigns(running: seq<CampaignId>, scheduled: seq<CampaignId>, limit: nat, now: Instant)
      returns (recovered: seq<CampaignId>)
      requires TokensIssued() && Distinct(running) && Distinct(scheduled)
      requires forall id :: id in running || id in scheduled ==> id in campaigns && IsStuck(campaigns[id], now)
      modifies this`campaigns, this`next
      ensures next == old(next) + |recovered| && |recovered| <= limit
      ensures recovered <= running || running <= recovered
      ensures |running| + |scheduled| <= limit ==> forall id :: id in running || id in scheduled ==> id in recovered
      ensures View() == Run(old(View()), Recoveries(recovered, now))
      ensures RecoveredInOrder(old(campaigns), campaigns, recovered, |recovered|, old(next), now)
    {
      var rows := MergeRows(running, scheduled);
      recovered := if |rows| <= limit then rows else rows[..limit];
      assert forall i :: 0 <= i < |recovered| ==> recovered[i] == rows[i] && rows[i] in rows;
      RecoverRows(recovered, now);
    }

    /** Recovering the given campaigns one after the other. */
    ghost function Recoveries(ids: seq<CampaignId>, now: Instant): (steps: seq<Step>)
    {
      seq(|ids|, i requires 0 <= i < |ids| => Change(ids[i], Recover(now)))
    }

    lemma RecoveriesNext(start: State, ids: seq<CampaignId>, i: nat, now: Instant)
      requires i < |ids|
      ensures Run(start, Recoveries(ids[..i + 1], now))
              == Apply(Run(start, Recoveries(ids[..i], now)), Change(ids[i], Recover(now))).0
    {
      RunAppend(start, Recoveries(ids[..i], now), Change(ids[i], Recover(now)));
      assert Recoveries(ids[..i + 1], now) == Recoveries(ids[..i], now) + [Change(ids[i], Recover(now))];
    }

    /** After n iterations from `start`: the table is that of n recovery steps. */
    ghost predicate RecoveredSoFar(start: State, ids: seq<CampaignId>, n: nat, now: Instant)
      reads this
    {
      && n <= |ids| && next == start.next + n
      && View() == Run(start, Recoveries(ids[..n], now))
      && RecoveredInOrder(start.campaigns, campaigns, ids, n, start.next, now)
    }

    ghost predicate AllStuck(table: map<CampaignId, Campaign>, ids: seq<CampaignId>, now: Instant) {
      forall i :: 0 <= i < |ids| ==> ids[i] in table && IsStuck(table[ids[i]], now)
    }

    /** An iteration prolongs the run of recovery steps. */
    method RecoverOneMore(ids: seq<CampaignId>, i: nat, now: Instant, ghost start: State)
      requires i < |ids| && TokensIssued() && ids[i] in campaigns && IsStuck(campaigns[ids[i]], now)
      requires View() == Run(start, Recoveries(ids[..i], now))
      modifies this`campaigns, this`next
      ensures TokensIssued() && next == old(next) + 1
      ensures View() == Run(start, Recoveries(ids[..i + 1], now))
      ensures campaigns == old(campaigns)[ids[i] := Recovered(old(campaigns)[ids[i]], old(next), now)]
    {
      RecoveriesNext(start, ids, i, now);
      RecoverOne(ids[i], now);
    }

    method RecoverAt(ids: seq<CampaignId>, i: nat, now: Instant, ghost start: State)
      requires i < |ids| && TokensIssued() && AllStuck(start.campaigns, ids, now) && RecoveredSoFar(start, ids, i, now)
      modifies this`campaigns, this`next
      ensures TokensIssued() && RecoveredSoFar(start, ids, i + 1, now)
    {
      ghost var mid := campaigns;
      RecoverNext(start.campaigns, mid, ids, i, start.next, now);
      RecoverOneMore(ids, i, now, start);
      assert campaigns == mid[ids[i] := Recovered(mid[ids[i]], start.next + i, now)];
    }

    /** The loop is a run of recovery steps, each of them taken. */
    method RecoverRows(ids: seq<CampaignId>, now: Instant)
      requires TokensIssued() && Distinct(ids) && AllStuck(campaigns, ids, now)
      modifies this`campaigns, this`next
      ensures TokensIssued() && next == old(next) + |ids|
      ensures View() == Run(old(View()), Recoveries(ids, now))
      ensures RecoveredInOrder(old(campaigns), campaigns, ids, |ids|, old(next), now)
    {
      ghost var start := View();
      assert ids[..0] == [];
      for i := 0 to |ids|
        invariant TokensIssued() && RecoveredSoFar(start, ids, i, now)
      {
        RecoverAt(ids, i, now, start);
      }
      assert ids[..|ids|] == ids;
    }

    /** The first n of the ids carry the next n tokens; every other campaign is as before. */
    ghost predicate RecoveredInOrder(before: map<CampaignId, Campaign>, after: map<CampaignId, Campaign>,
                                     ids: seq<CampaignId>, n: nat, token: Token, now: Instant) {
      && n <= |ids| && Distinct(ids) && after.Keys == before.Keys
      && (forall i :: 0 <= i < n ==> ids[i] in before && after[ids[i]] == Recovered(before[ids[i]], token + i, now))
      && (forall id :: id in before && (forall i :: 0 <= i < n ==> ids[i] != id) ==> after[id] == before[id])
    }

    method RetryFailedCampaignRecipients(id: CampaignId, now: Instant) returns (r: Result)
      requires TokensIssued()
      modifies this`campaigns, this`next
      ensures (View(), r) == Apply(old(View()), Change(id, Retry(now)))
    {
      if id !in campaigns {
        return Refused(NotFound);
      }
      var c := campaigns[id];
      Unwritten(campaigns, id);
      if !Retriable(c.status) {
        return Refused(CannotRetry);
      }
      if !AnyFailed(c.recipients) {
        return Refused(NoFailedRecipients);
      }
      var token := NewToken();
      c := c.(recipients := ResetAll(c.recipients), status := Scheduled, token := Some(token),
              heartbeatAt := Some(now));
      campaigns := campaigns[id := c];
      campaigns := campaigns[id := c.(status := Running)];
      assert campaigns == old(campaigns)[id := c.(status := Running)];
      return Done;
    }

    method WorkerBegins(id: CampaignId, token: Token, configured: bool, now: Instant) returns (r: Result)
      modifies this`campaigns
      ensures (View(), r) == Apply(old(View()), Change(id, WorkerBegin(token, configured, now)))
    {
      if id !in campaigns {
        return Refused(NotFound);
      }
      var c := campaigns[id];
      Unwritten(campaigns, id);
      if c.token != Some(token) {
        return Refused(StaleTask);
      }
      if c.requiresApproval && c.approvedAt.None? {
        return Refused(ApprovalRequired);
      }
      if c.status == Cancelled {
        return Refused(WorkerStopped);
      }
      if !configured {
        campaigns := campaigns[id := c.(status := Failed)];
        return Done;
      }
      c := c.(status := Running, heartbeatAt := Some(now));
      if c.startedAt.None? {
        c := c.(startedAt := Some(now));
      }
      campaigns := campaigns[id := c];
      return Done;
    }

    method WorkerFinishes(id: CampaignId, token: Token, anyFailed: bool) returns (r: Result)
      modifies this`campaigns
      ensures (View(), r) == Apply(old(View()), Change(id, WorkerFinish(token, anyFailed)))
    {
      if id !in campaigns {
        return Refused(NotFound);
      }
      Unwritten(campaigns, id);
      if campaigns[id].token != Some(token) {
        return Refused(StaleTask);
      }
      if campaigns[id].status == Paused || campaigns[id].status == Cancelled {
        return Refused(WorkerStopped);
      }
      campaigns := campaigns[id := campaigns[id].(status := if anyFailed then CompletedWithErrors else Completed)];
      return Done;
    }
  }
}
