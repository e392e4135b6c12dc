/** Which of the requested recipients a new campaign keeps, and how that relates to the
    eligibility count shown before creating it. */
module Audience {
  import opened Common
  import opened PhoneNormalize

  type ContactId = nat
  type Id = nat
  type Instant = int

  datatype Reachability = Reachable | Risky | Unreachable

  datatype Contact = Contact(
    account: Id,
    organization: Id,
    channel: Id,
    deleted: bool,
    marketingOptIn: bool,
    address: string,
    country: string,
    reachability: Option<Reachability>,
    failures: nat,
    lastInboundAt: Option<Instant>)

  /** One requested recipient with its template parameters. */
  datatype Candidate = Candidate(contact: ContactId, parameters: seq<string>)

  datatype Request = Request(
    account: Id,
    organization: Id,
    channel: Id,
    recipients: seq<Candidate>,
    excludeMarketingOptOut: bool,
    excludeUnreachable: bool,
    excludeRisky: bool,
    onlyNeverSent: bool)

  datatype AudienceError =
    | DuplicateRecipient
    | InvalidRecipient
    | RecipientChannelMismatch
    | AllRecipientsOptedOut
    | AllRecipientsUnreachable
    | AllRecipientsPreviouslySent

  datatype Selection = Kept(recipients: seq<Candidate>) | Rejected(error: AudienceError)

  /** The contacts table, and the contacts already messaged (by inbox or by campaign). */
  datatype Directory = Directory(contacts: map<ContactId, Contact>, previouslySent: set<ContactId>)

  // ----- eligibility of one contact

  predicate IsPhoneValid(c: Contact) {
    NormalizeWhatsappPhone(c.address, CountryDial(c.country)) != ""
  }

  /** is_contact_campaign_eligible with marketing opt-in required, as both callers use it. */
  predicate IsEligible(c: Contact, excludeUnreachable: bool, excludeRisky: bool) {
    && c.marketingOptIn
    && IsPhoneValid(c)
    && !(excludeUnreachable && c.reachability == Some(Unreachable))
    && !(excludeRisky && c.reachability == Some(Risky))
    && !(excludeRisky && c.lastInboundAt.None? && c.reachability != Some(Reachable))
  }

  // ----- selecting recipients

  /** The order-preserving subsequence of the candidates that pass. */
  function Filter(s: seq<Candidate>, keep: Candidate -> bool): seq<Candidate> {
    if s == [] then [] else (if keep(s[0]) then [s[0]] else []) + Filter(s[1..], keep)
  }

  function Contacts(s: seq<Candidate>): (ids: seq<ContactId>)
    ensures |ids| == |s| && forall i :: 0 <= i < |s| ==> ids[i] == s[i].contact
  {
    seq(|s|, i requires 0 <= i < |s| => s[i].contact)
  }

  predicate Known(d: Directory, q: Request, id: ContactId) {
    && id in d.contacts && d.contacts[id].account == q.account
    && d.contacts[id].organization == q.organization && !d.contacts[id].deleted
  }

  predicate OnChannel(d: Directory, q: Request, r: Candidate) {
    r.contact in d.contacts && d.contacts[r.contact].channel == q.channel
  }

  predicate OptedIn(d: Directory, q: Request, r: Candidate) {
    r.contact in d.contacts && (q.excludeMarketingOptOut ==> d.contacts[r.contact].marketingOptIn)
  }

  predicate Eligible(d: Directory, q: Request, r: Candidate) {
    r.contact in d.contacts && IsEligible(d.contacts[r.contact], q.excludeUnreachable, q.excludeRisky)
  }

  predicate NeverSent(d: Directory, q: Request, r: Candidate) {
    q.onlyNeverSent ==> r.contact !in d.previouslySent
  }

  /** The first n of the four conditions at once. */
  ghost function Conditions(d: Directory, q: Request, n: nat): Candidate -> bool {
    r => (n >= 1 ==> OnChannel(d, q, r)) && (n >= 2 ==> OptedIn(d, q, r))
         && (n >= 3 ==> Eligible(d, q, r)) && (n >= 4 ==> NeverSent(d, q, r))
  }

  ghost function Passing(d: Directory, q: Request, n: nat): seq<Candidate> {
    Filter(q.recipients, Conditions(d, q, n))
  }

  ghost predicate AllKnown(d: Directory, q: Request) {
    forall r :: r in q.recipients ==> Known(d, q, r.contact)
  }

  /** What create_campaign owes a request: the recipients meeting all four conditions at once,
      or the error of the first condition that, with those before it, nobody meets. */
  ghost function Select(d: Directory, q: Request): Selection {
    if !Distinct(Contacts(q.recipients)) then Rejected(DuplicateRecipient)
    else if !AllKnown(d, q) then Rejected(InvalidRecipient)
    else Narrowed(d, q)
  }

  ghost function Narrowed(d: Directory, q: Request): Selection {
    if Passing(d, q, 1) == [] then Rejected(RecipientChannelMismatch)
    else if Passing(d, q, 2) == [] then Rejected(AllRecipientsOptedOut)
    else if Passing(d, q, 3) == [] then Rejected(AllRecipientsUnreachable)
    else if Passing(d, q, 4) == [] then Rejected(AllRecipientsPreviouslySent)
    else Kept(Passing(d, q, 4))
  }

  lemma {:induction false} FilterTwice(s: seq<Candidate>, p: Candidate -> bool, q: Candidate -> bool,
                                       both: Candidate -> bool)
    requires forall r :: both(r) <==> p(r) && q(r)
    ensures Filter(Filter(s, p), q) == Filter(s, both)
  {
    if s != [] {
      FilterTwice(s[1..], p, q, both);
      if p(s[0]) {
        assert ([s[0]] + Filter(s[1..], p))[1..] == Filter(s[1..], p);
      } else {
        assert Filter(s, p) == Filter(s[1..], p);
      }
    }
  }

  lemma {:induction false} FilterSame(s: seq<Candidate>, p: Candidate -> bool, q: Candidate -> bool)
    requires forall r :: r in s ==> (p(r) <==> q(r))
    ensures Filter(s, p) == Filter(s, q)
  {
    if s != [] {
      assert s[0] in s;
      FilterSame(s[1..], p, q);
    }
  }

  lemma {:induction false} DistinctCount<T>(s: seq<T>)
    ensures |ToSet(s)| <= |s|
    ensures |ToSet(s)| == |s| <==> Distinct(s)
  {
    if s != [] {
      var front, last := s[..|s| - 1], s[|s| - 1];
      DistinctCount(front);
      assert s == front + [last];
      assert ToSet(s) == ToSet(front) + {last};
      if last in front {
        assert ToSet(s) == ToSet(front);
        var i :| 0 <= i < |front| && front[i] == last;
        assert s[i] == s[|s| - 1];
      } else if Distinct(front) {
        assert Distinct(s);
      }
    }
  }

  function ToSet<T>(s: seq<T>): set<T> {
    set x | x in s
  }

  /** One narrowing step leaves the recipients passing one condition more. */
  lemma Narrow(d: Directory, q: Request, n: nat, next: Candidate -> bool)
    requires forall r :: Conditions(d, q, n + 1)(r) <==> Conditions(d, q, n)(r) && next(r)
    ensures Filter(Passing(d, q, n), next) == Passing(d, q, n + 1)
  {
    FilterTwice(q.recipients, Conditions(d, q, n), next, Conditions(d, q, n + 1));
  }

  /** A condition that is switched off drops nobody. */
  lemma NoNarrowing(d: Directory, q: Request, n: nat)
    requires forall r :: r in q.recipients ==> (Conditions(d, q, n)(r) <==> Conditions(d, q, n + 1)(r))
    ensures Passing(d, q, n) == Passing(d, q, n + 1)
  {
    FilterSame(q.recipients, Conditions(d, q, n), Conditions(d, q, n + 1));
  }

  lemma {:induction false} FilterAll(s: seq<Candidate>, p: Candidate -> bool)
    requires forall r :: p(r)
    ensures Filter(s, p) == s
  {
    if s != [] {
      FilterAll(s[1..], p);
    }
  }

  /** The checks on the request, then the narrowing of `recipients`, filter by filter. */
  method SelectRecipients(d: Directory, q: Request) returns (r: Selection)
    ensures r == Select(d, q)
  {
    DistinctCount(Contacts(q.recipients));
    if |ToSet(Contacts(q.recipients))| != |q.recipients| {
      return Rejected(DuplicateRecipient);
    }
    if exists r :: r in q.recipients && !Known(d, q, r.contact) {
      return Rejected(InvalidRecipient);
    }
    r := NarrowRecipients(d, q);
  }

  method NarrowRecipients(d: Directory, q: Request) returns (r: Selection)
    requires AllKnown(d, q)
    ensures r == Narrowed(d, q)
  {
    var onChannel, optedIn := (r: Candidate) => OnChannel(d, q, r), (r: Candidate) => OptedIn(d, q, r);
    var eligible, neverSent := (r: Candidate) => Eligible(d, q, r), (r: Candidate) => NeverSent(d, q, r);
    FilterAll(q.recipients, Conditions(d, q, 0));
    Narrow(d, q, 0, onChannel);
    var recipients := Filter(q.recipients, onChannel);
    if recipients == [] {
      return Rejected(RecipientChannelMismatch);
    }
    if q.excludeMarketingOptOut {
      Narrow(d, q, 1, optedIn);
      recipients := Filter(recipients, optedIn);
      if recipients == [] {
        return Rejected(AllRecipientsOptedOut);
      }
    } else {
      NoNarrowing(d, q, 1);
    }
    Narrow(d, q, 2, eligible);
    recipients := Filter(recipients, eligible);
    if recipients == [] {
      return Rejected(AllRecipientsUnreachable);
    }
    if q.onlyNeverSent {
      Narrow(d, q, 3, neverSent);
      recipients := Filter(recipients, neverSent);
      if recipients == [] {
        return Rejected(AllRecipientsPreviouslySent);
      }
    } else {
      NoNarrowing(d, q, 3);
    }
    return Kept(recipients);
  }

  // ----- what is kept

  lemma {:induction false} FilterKeepsDistinct(s: seq<Candidate>, p: Candidate -> bool)
    requires Distinct(Contacts(s))
    ensures Distinct(Contacts(Filter(s, p)))
    ensures |Filter(s, p)| <= |s|
    ensures forall r :: r in Filter(s, p) <==> r in s && p(r)
  {
    if s != [] {
      assert forall i :: 0 <= i < |s| - 1 ==> Contacts(s[1..])[i] == Contacts(s)[i + 1];
      FilterKeepsDistinct(s[1..], p);
      var rest := Filter(s[1..], p);
      forall i | 0 <= i < |rest| ensures rest[i].contact != s[0].contact {
        assert rest[i] in rest && rest[i] in s[1..];
        var k :| 0 <= k < |s[1..]| && s[1..][k] == rest[i];
        assert Contacts(s)[0] != Contacts(s)[k + 1];
      }
    }
  }

  /** The kept recipients have distinct contacts, are not none, and are exactly the requested
      ones meeting every condition. */
  lemma KeptRecipients(d: Directory, q: Request)
    ensures Select(d, q).Kept? ==>
              var kept := Select(d, q).recipients;
              && kept != [] && Distinct(Contacts(kept)) && |kept| <= |q.recipients|
              && (forall r :: r in kept <==>
                    && r in q.recipients
                    && OnChannel(d, q, r) && OptedIn(d, q, r) && Eligible(d, q, r) && NeverSent(d, q, r))
  {
    if Select(d, q).Kept? {
      FilterKeepsDistinct(q.recipients, Conditions(d, q, 4));
    }
  }

  /** `at` lists, in increasing order, where in `s` the members of `r` stand. */
  ghost predicate Positions(at: seq<nat>, s: seq<Candidate>, r: seq<Candidate>) {
    && |at| == |r| && (forall i, j :: 0 <= i < j < |at| ==> at[i] < at[j])
    && forall i :: 0 <= i < |at| ==> at[i] < |s| && r[i] == s[at[i]]
  }

  lemma {:induction false} FilterPositions(s: seq<Candidate>, keep: Candidate -> bool) returns (at: seq<nat>)
    ensures Positions(at, s, Filter(s, keep))
    ensures forall k :: 0 <= k < |s| ==> (keep(s[k]) <==> k in at)
  {
    at := [];
    if s != [] {
      var front, last := s[..|s| - 1], s[|s| - 1];
      assert s == front + [last];
      at := FilterPositions(front, keep);
      FilterAppend(front, last, keep);
      if keep(last) {
        at := at + [|front|];
      }
    }
  }

  lemma {:induction false} FilterAppend(s: seq<Candidate>, last: Candidate, keep: Candidate -> bool)
    ensures Filter(s + [last], keep) == Filter(s, keep) + if keep(last) then [last] else []
  {
    if s == [] {
      assert s + [last] == [last];
    } else {
      var t := s + [last];
      assert t[0] == s[0] && t[1..] == s[1..] + [last];
      FilterAppend(s[1..], last, keep);
      assert Filter(t, keep) == (if keep(t[0]) then [t[0]] else []) + Filter(t[1..], keep);
    }
  }

  /** They keep the order of the request, and every position meeting the conditions is there. */
  lemma KeptInOrder(d: Directory, q: Request) returns (at: seq<nat>)
    requires Select(d, q).Kept?
    ensures Positions(at, q.recipients, Select(d, q).recipients)
    ensures forall k :: 0 <= k < |q.recipients| ==>
              var r := q.recipients[k];
              (OnChannel(d, q, r) && OptedIn(d, q, r) && Eligible(d, q, r) && NeverSent(d, q, r) <==> k in at)
  {
    at := FilterPositions(q.recipients, Conditions(d, q, 4));
  }

  // ----- the selection in terms of the contacts table

  /** The contact is live and belongs to the campaign's account and organization. */
  ghost predicate IsListed(d: Directory, q: Request, id: ContactId) {
    && id in d.contacts && !d.contacts[id].deleted
    && d.contacts[id].account == q.account && d.contacts[id].organization == q.organization
  }

  /** Marketing is allowed, the address can be dialled, and reachability permits: not unreachable
      where those are excluded; where risky ones are, either reachable or, while not risky, heard
      from before. */
  ghost predicate MaySend(c: Contact, excludeUnreachable: bool, excludeRisky: bool) {
    && c.marketingOptIn
    && Digits(c.address) != "" && Digits(c.address) != "00"
    && (excludeUnreachable ==> c.reachability != Some(Unreachable))
    && (excludeRisky ==>
          c.reachability == Some(Reachable) || (c.reachability != Some(Risky) && c.lastInboundAt != None))
  }

  lemma EligibleExactly(c: Contact, excludeUnreachable: bool, excludeRisky: bool)
    ensures IsEligible(c, excludeUnreachable, excludeRisky) <==> MaySend(c, excludeUnreachable, excludeRisky)
  {
    EmptyExactly(c.address, CountryDial(c.country));
  }

  lemma AllEligibleExactly(d: Directory, q: Request)
    ensures forall r :: Eligible(d, q, r) <==>
              r.contact in d.contacts && MaySend(d.contacts[r.contact], q.excludeUnreachable, q.excludeRisky)
  {
    forall r ensures Eligible(d, q, r) <==>
      r.contact in d.contacts && MaySend(d.contacts[r.contact], q.excludeUnreachable, q.excludeRisky)
    {
      if r.contact in d.contacts {
        EligibleExactly(d.contacts[r.contact], q.excludeUnreachable, q.excludeRisky);
      }
    }
  }

  ghost predicate MayReceive(d: Directory, q: Request, r: Candidate) {
    && r in q.recipients && IsListed(d, q, r.contact) && d.contacts[r.contact].channel == q.channel
    && MaySend(d.contacts[r.contact], q.excludeUnreachable, q.excludeRisky)
  }

  /** A campaign is sent to exactly the requested contacts that are listed, on its channel, may be
      sent to, and, if asked for, were never sent to before. */
  lemma KeptExactly(d: Directory, q: Request, r: Candidate)
    requires Select(d, q).Kept?
    ensures r in Select(d, q).recipients <==>
              MayReceive(d, q, r) && (q.onlyNeverSent ==> r.contact !in d.previouslySent)
  {
    KeptRecipients(d, q);
    AllEligibleExactly(d, q);
    assert r in q.recipients ==> Known(d, q, r.contact);
  }

  lemma {:induction false} FilterEmpty(s: seq<Candidate>, p: Candidate -> bool)
    ensures Filter(s, p) == [] <==> forall r :: r in s ==> !p(r)
  {
    if s != [] {
      FilterEmpty(s[1..], p);
      assert s == [s[0]] + s[1..];
    }
  }

  ghost predicate OnItsChannel(d: Directory, q: Request, r: Candidate)
    requires AllKnown(d, q)
  {
    r in q.recipients && Known(d, q, r.contact) && d.contacts[r.contact].channel == q.channel
  }

  lemma NobodyOnChannel(d: Directory, q: Request)
    requires AllKnown(d, q)
    ensures Passing(d, q, 1) == [] <==> forall r :: !OnItsChannel(d, q, r)
  {
    FilterEmpty(q.recipients, Conditions(d, q, 1));
    assert forall r :: r in q.recipients ==> (Conditions(d, q, 1)(r) <==> OnItsChannel(d, q, r)) by {
      assert forall r :: r in q.recipients ==> Known(d, q, r.contact);
    }
  }

  lemma NobodyOptedIn(d: Directory, q: Request)
    requires AllKnown(d, q)
    ensures Passing(d, q, 2) == [] <==>
              forall r :: OnItsChannel(d, q, r) ==>
                q.excludeMarketingOptOut && !d.contacts[r.contact].marketingOptIn
  {
    FilterEmpty(q.recipients, Conditions(d, q, 2));
  }

  lemma NobodySendable(d: Directory, q: Request)
    requires AllKnown(d, q)
    ensures Passing(d, q, 3) == [] <==> forall r :: !MayReceive(d, q, r)
  {
    FilterEmpty(q.recipients, Conditions(d, q, 3));
    AllEligibleExactly(d, q);
    assert forall r :: r in q.recipients ==> (Conditions(d, q, 3)(r) <==> MayReceive(d, q, r)) by {
      assert forall r :: r in q.recipients ==> Known(d, q, r.contact);
    }
  }

  lemma NobodyNew(d: Directory, q: Request)
    requires AllKnown(d, q)
    ensures Passing(d, q, 4) == [] <==>
              forall r :: MayReceive(d, q, r) ==> q.onlyNeverSent && r.contact in d.previouslySent
  {
    FilterEmpty(q.recipients, Conditions(d, q, 4));
    AllEligibleExactly(d, q);
    assert forall r :: r in q.recipients ==>
      (Conditions(d, q, 4)(r) <==> MayReceive(d, q, r) && (q.onlyNeverSent ==> r.contact !in d.previouslySent)) by {
      assert forall r :: r in q.recipients ==> Known(d, q, r.contact);
    }
  }

  /** A request is turned away for its list alone: a contact twice, or one that is not listed. */
  lemma ListErrorsExactly(d: Directory, q: Request)
    ensures Select(d, q) == Rejected(DuplicateRecipient) <==>
              exists i, j :: 0 <= i < j < |q.recipients| && q.recipients[i].contact == q.recipients[j].contact
    ensures Select(d, q) == Rejected(InvalidRecipient) <==>
              && (forall i, j :: 0 <= i < j < |q.recipients| ==> q.recipients[i].contact != q.recipients[j].contact)
              && exists r :: r in q.recipients && !IsListed(d, q, r.contact)
  {
    var ids := Contacts(q.recipients);
    assert forall i :: 0 <= i < |ids| ==> ids[i] == q.recipients[i].contact;
    assert forall r :: r in q.recipients ==> (Known(d, q, r.contact) <==> IsListed(d, q, r.contact));
  }

  /** Which of the other errors is raised: nobody on the channel; everybody on it opted out, where
      that is asked about; nobody else who may be sent to; everybody who may was sent to before. */
  lemma EmptyErrorsExactly(d: Directory, q: Request)
    requires Distinct(Contacts(q.recipients)) && AllKnown(d, q)
    ensures Select(d, q) == Rejected(RecipientChannelMismatch) <==> forall r :: !OnItsChannel(d, q, r)
    ensures Select(d, q) == Rejected(AllRecipientsOptedOut) <==>
              && (exists r :: OnItsChannel(d, q, r))
              && forall r :: OnItsChannel(d, q, r) ==>
                   q.excludeMarketingOptOut && !d.contacts[r.contact].marketingOptIn
    ensures Select(d, q) == Rejected(AllRecipientsUnreachable) <==>
              && (exists r :: OnItsChannel(d, q, r)
                              && (q.excludeMarketingOptOut ==> d.contacts[r.contact].marketingOptIn))
              && forall r :: !MayReceive(d, q, r)
    ensures Select(d, q) == Rejected(AllRecipientsPreviouslySent) <==>
              && (exists r :: MayReceive(d, q, r))
              && forall r :: MayReceive(d, q, r) ==> q.onlyNeverSent && r.contact in d.previouslySent
  {
    NobodyOnChannel(d, q);
    NobodyOptedIn(d, q);
    NobodySendable(d, q);
    NobodyNew(d, q);
    StagesShrink(d, q);
  }

  // ----- the eligibility count

  /** count_campaign_eligible over the given contact ids. */
  function CountCampaignEligible(d: Directory, account: Id, ids: seq<ContactId>, excludeUnreachable: bool,
                                 excludeRisky: bool): nat {
    |set id | id in d.contacts && Counted(d, account, ids, excludeUnreachable, excludeRisky, id)|
  }

  predicate Counted(d: Directory, account: Id, ids: seq<ContactId>, excludeUnreachable: bool, excludeRisky: bool,
                    id: ContactId)
    requires id in d.contacts
  {
    && d.contacts[id].account == account && id in ids && !d.contacts[id].deleted && d.contacts[id].marketingOptIn
    && IsEligible(d.contacts[id], excludeUnreachable, excludeRisky)
  }

  /** Counted are the given contacts of the account that are live and may be sent to. */
  lemma CountExactly(d: Directory, account: Id, ids: seq<ContactId>, excludeUnreachable: bool, excludeRisky: bool)
    ensures CountCampaignEligible(d, account, ids, excludeUnreachable, excludeRisky)
            == |set id | id in d.contacts && id in ids && d.contacts[id].account == account
                         && !d.contacts[id].deleted && MaySend(d.contacts[id], excludeUnreachable, excludeRisky)|
  {
    var counted := set id | id in d.contacts && Counted(d, account, ids, excludeUnreachable, excludeRisky, id);
    var sendable := set id | id in d.contacts && id in ids && d.contacts[id].account == account
      && !d.contacts[id].deleted && MaySend(d.contacts[id], excludeUnreachable, excludeRisky);
    forall id | id in d.contacts ensures id in counted <==> id in sendable {
      EligibleExactly(d.contacts[id], excludeUnreachable, excludeRisky);
    }
    assert counted == sendable;
  }

  lemma InContacts(s: seq<Candidate>, id: ContactId)
    ensures id in Contacts(s) <==> exists r :: r in s && r.contact == id
  {
    if id in Contacts(s) {
      var i :| 0 <= i < |s| && Contacts(s)[i] == id;
      assert s[i] in s;
    }
    if r :| r in s && r.contact == id {
      var i :| 0 <= i < |s| && s[i] == r;
      assert Contacts(s)[i] == id;
    }
  }

  ghost predicate Countable(d: Directory, q: Request) {
    && Distinct(Contacts(q.recipients)) && AllKnown(d, q) && !q.onlyNeverSent
    && forall r :: r in q.recipients ==> OnChannel(d, q, r)
  }

  predicate CountsFor(d: Directory, q: Request, id: ContactId) {
    && id in d.contacts
    && Counted(d, q.account, Contacts(q.recipients), q.excludeUnreachable, q.excludeRisky, id)
  }

  /** The count asked for with the request's own contacts and flags. */
  function EligibleCount(d: Directory, q: Request): nat {
    CountCampaignEligible(d, q.account, Contacts(q.recipients), q.excludeUnreachable, q.excludeRisky)
  }

  lemma CountedIsKept(d: Directory, q: Request, id: ContactId)
    requires Countable(d, q)
    ensures CountsFor(d, q, id) <==> id in Contacts(Passing(d, q, 4))
  {
    FilterKeepsDistinct(q.recipients, Conditions(d, q, 4));
    InContacts(q.recipients, id);
    InContacts(Passing(d, q, 4), id);
  }

  /** For known recipients, distinct and all on the sending channel, and without the never-sent
      restriction, creation keeps exactly as many as the count says, whatever
      exclude_marketing_opt_out is; so it succeeds exactly when the count is positive. */
  lemma CountAgreesWithSelection(d: Directory, q: Request)
    requires Countable(d, q)
    ensures var count := EligibleCount(d, q);
            && (Select(d, q).Kept? <==> count > 0)
            && (Select(d, q).Kept? ==> |Select(d, q).recipients| == count)
  {
    var ids := Contacts(Passing(d, q, 4));
    FilterKeepsDistinct(q.recipients, Conditions(d, q, 4));
    DistinctCount(ids);
    forall id ensures CountsFor(d, q, id) <==> id in ids {
      CountedIsKept(d, q, id);
    }
    CountIsSize(d, q, ids);
    StagesShrink(d, q);
  }

  lemma CountIsSize(d: Directory, q: Request, ids: seq<ContactId>)
    requires forall id :: CountsFor(d, q, id) <==> id in ids
    ensures EligibleCount(d, q) == |ToSet(ids)|
  {
    var asked := Contacts(q.recipients);
    var counted :=
      set id | id in d.contacts && Counted(d, q.account, asked, q.excludeUnreachable, q.excludeRisky, id);
    assert forall id :: id in counted <==> CountsFor(d, q, id);
    assert counted == ToSet(ids);
  }

  lemma {:induction false} FilterEmptyMonotone(s: seq<Candidate>, p: Candidate -> bool, q: Candidate -> bool)
    requires forall r :: q(r) ==> p(r)
    ensures Filter(s, p) == [] ==> Filter(s, q) == []
  {
    if s != [] {
      FilterEmptyMonotone(s[1..], p, q);
    }
  }

  lemma StagesShrink(d: Directory, q: Request)
    ensures Passing(d, q, 1) == [] ==> Passing(d, q, 2) == []
    ensures Passing(d, q, 2) == [] ==> Passing(d, q, 3) == []
    ensures Passing(d, q, 3) == [] ==> Passing(d, q, 4) == []
  {
    FilterEmptyMonotone(q.recipients, Conditions(d, q, 1), Conditions(d, q, 2));
    FilterEmptyMonotone(q.recipients, Conditions(d, q, 2), Conditions(d, q, 3));
    FilterEmptyMonotone(q.recipients, Conditions(d, q, 3), Conditions(d, q, 4));
  }

  ghost predicate NobodyMarketable(r: Selection) {
    r.Rejected? && (r.error == AllRecipientsOptedOut || r.error == AllRecipientsUnreachable)
  }

  /** For every request, excluding opted-out contacts or not changes nothing but the name of the
      error when nobody is eligible: eligibility requires the opt-in either way. */
  lemma OptOutFlagIsIdle(d: Directory, q: Request, flag: bool)
    ensures var other := Select(d, q.(excludeMarketingOptOut := flag));
            Select(d, q) == other || (NobodyMarketable(Select(d, q)) && NobodyMarketable(other))
  {
    var q1 := q.(excludeMarketingOptOut := flag);
    forall n: nat | n != 2 ensures Passing(d, q, n) == Passing(d, q1, n) {
      FilterSame(q.recipients, Conditions(d, q, n), Conditions(d, q1, n));
    }
    StagesShrink(d, q);
    StagesShrink(d, q1);
    assert AllKnown(d, q) <==> AllKnown(d, q1) by {
      assert forall r :: Known(d, q, r) == Known(d, q1, r);
    }
  }

  // ----- reachability bookkeeping

  /** Delivery events on a contact; `unreachable` is what classify_delivery_error makes of the
      error text. */
  datatype DeliveryEvent = Failure(unreachable: bool) | Success | Inbound(at: Instant)

  function Recorded(c: Contact, e: DeliveryEvent): Contact {
    match e
    case Failure(unreachable) =>
      c.(failures := c.failures + 1,
         reachability := Some(if unreachable || c.failures + 1 >= 2 then Unreachable else Risky))
    case Success => c.(failures := 0, reachability := Some(Reachable))
    case Inbound(at) => c.(reachability := Some(Reachable), lastInboundAt := Some(at))
  }

  /** After a delivery or a message from the contact, reachability no longer bars it. */
  lemma ReachableAgain(c: Contact, e: DeliveryEvent, excludeUnreachable: bool, excludeRisky: bool)
    requires !e.Failure?
    ensures IsEligible(Recorded(c, e), excludeUnreachable, excludeRisky) <==>
              c.marketingOptIn && Digits(c.address) != "" && Digits(c.address) != "00"
    ensures e == Success ==> Recorded(c, e).failures == 0
    ensures e.Inbound? ==> Recorded(c, e).failures == c.failures && Recorded(c, e).lastInboundAt == Some(e.at)
  {
    EligibleExactly(Recorded(c, e), excludeUnreachable, excludeRisky);
  }

  /** A first failure that is not final leaves the contact risky. */
  lemma FirstFailureIsRisky(c: Contact, unreachable: bool)
    ensures Recorded(c, Failure(unreachable)).reachability
            == if c.failures == 0 && !unreachable then Some(Risky) else Some(Unreachable)
  {
  }

  ghost function RecordedAll(c: Contact, events: seq<DeliveryEvent>): Contact {
    if events == [] then c else Recorded(RecordedAll(c, events[..|events| - 1]), events[|events| - 1])
  }

  ghost function FailuresSinceSuccess(c: Contact, events: seq<DeliveryEvent>): nat {
    if events == [] then c.failures
    else match events[|events| - 1]
      case Failure(_) => FailuresSinceSuccess(c, events[..|events| - 1]) + 1
      case Success => 0
      case Inbound(_) => FailuresSinceSuccess(c, events[..|events| - 1])
  }

  /** After a failure the contact is barred from campaigns that exclude unreachable contacts if
      the error was final or it was not the first failure since a success; a message from the
      contact in between does not restart the count. */
  lemma {:induction false} RepeatedFailureBars(c: Contact, events: seq<DeliveryEvent>)
    ensures RecordedAll(c, events).failures == FailuresSinceSuccess(c, events)
    ensures events != [] && events[|events| - 1].Failure? ==>
              (RecordedAll(c, events).reachability == Some(Unreachable)
               <==> events[|events| - 1].unreachable || FailuresSinceSuccess(c, events) >= 2)
    ensures events != [] && events[|events| - 1].Failure? && FailuresSinceSuccess(c, events) >= 2 ==>
              !IsEligible(RecordedAll(c, events), true, false)
  {
    if events != [] {
      RepeatedFailureBars(c, events[..|events| - 1]);
    }
  }
}
