/** Assigning conversations: choosing the rule, then a team member by round robin or by least
    open conversations. */
module Assignment {
  import opened Common

  type Id = nat

  datatype Strategy = RoundRobin | LeastOpen

  datatype Rule = Rule(
    account: Id,
    organization: Id,
    channel: Option<Id>,
    team: Id,
    strategy: Strategy,
    priority: int,
    createdAt: int,
    isActive: bool,
    lastAssigned: Option<Id>)

  datatype Status = Open | Pending | Closed | Spam

  datatype Conversation = Conversation(account: Id, organization: Id, channel: Id, assignee: Option<Id>, status: Status)

  // ----- choosing the rule

  predicate Applies(r: Rule, c: Conversation) {
    && r.account == c.account && r.organization == c.organization && r.isActive
    && (r.channel.None? || r.channel.value == c.channel)
  }

  /** The order the rules are read in: priority, then age. */
  predicate Precedes(a: Rule, b: Rule) {
    a.priority < b.priority || (a.priority == b.priority && a.createdAt < b.createdAt)
  }

  /** A rule that applies and that no applicable rule precedes. */
  ghost predicate IsFirstRule(rules: map<Id, Rule>, id: Id, c: Conversation) {
    id in rules && Applies(rules[id], c) && forall k :: k in rules && Applies(rules[k], c) ==>
        !Precedes(rules[k], rules[id])
  }

  // ----- choosing the member

  /** Open and pending conversations of the organization assigned to the member. */
  ghost function OpenIds(conversations: map<Id, Conversation>, account: Id, organization: Id, member: Id): set<Id> {
    set id | id in conversations && CountsFor(conversations[id], account, organization, member)
  }

  predicate CountsFor(c: Conversation, account: Id, organization: Id, member: Id) {
    && c.account == account && c.organization == organization && c.assignee == Some(member)
    && (c.status == Open || c.status == Pending)
  }

  /** The loads of the members, in team order. */
  ghost function Loads(conversations: map<Id, Conversation>, account: Id, organization: Id,
                       members: seq<Id>): (loads: seq<nat>)
    ensures |loads| == |members|
  {
    seq(|members|, i requires 0 <= i < |members| => |OpenIds(conversations, account, organization, members[i])|)
  }

  /** The earliest of the least loaded: members come oldest first, so ties go to the oldest. */
  ghost predicate IsLeast(loads: seq<nat>, i: nat) {
    && i < |loads|
    && (forall j :: 0 <= j < |loads| ==> loads[i] <= loads[j])
    && (forall j :: 0 <= j < i ==> loads[i] < loads[j])
  }

  ghost predicate IndexOf(members: seq<Id>, member: Id, i: nat) {
    i < |members| && members[i] == member && forall j :: 0 <= j < i ==> members[j] != member
  }

  /** The member after the last assigned one, or the first when that one is not in the team. */
  ghost predicate IsNext(members: seq<Id>, last: Option<Id>, i: nat) {
    if last.Some? && last.value in members
    then exists k: nat :: IndexOf(members, last.value, k) && i == (k + 1) % |members|
    else i == 0 && members != []
  }

  type Teams = map<Id, seq<Id>>

  function Team(teams: Teams, rule: Rule): seq<Id> {
    if rule.team in teams then teams[rule.team] else []
  }

  /** The first rule `r` picks the i-th member of its team, and round robin remembers it. */
  ghost predicate AssignsBy(teams: Teams, rules0: map<Id, Rule>, table: map<Id, Conversation>, c: Conversation,
                            r: Id, i: nat, selected: Option<Id>, rules1: map<Id, Rule>)
  {
    && IsFirstRule(rules0, r, c) && i < |Team(teams, rules0[r])| && selected == Some(Team(teams, rules0[r])[i])
    && if rules0[r].strategy == LeastOpen
       then IsLeast(Loads(table, c.account, c.organization, Team(teams, rules0[r])), i) && rules1 == rules0
       else
         && IsNext(Team(teams, rules0[r]), rules0[r].lastAssigned, i)
         && rules1 == rules0[r := rules0[r].(lastAssigned := selected)]
  }

  class Inbox {
    var rules: map<Id, Rule>
    /** The active members of each team, oldest membership first. */
    var teams: Teams
    var conversations: map<Id, Conversation>

    constructor (rules: map<Id, Rule>, teams: Teams, conversations: map<Id, Conversation>)
      ensures this.rules == rules && this.teams == teams && this.conversations == conversations
    {
      this.rules, this.teams, this.conversations := rules, teams, conversations;
    }

    method FirstRule(c: Conversation) returns (found: Option<Id>)
      ensures found.Some? ==> IsFirstRule(rules, found.value, c)
      ensures found.None? ==> forall id :: id in rules ==> !Applies(rules[id], c)
    {
      var left := rules.Keys;
      found := None;
      while left != {}
        invariant left <= rules.Keys
        invariant found.Some? ==> found.value in rules && found.value !in left && Applies(rules[found.value], c)
        invariant found.Some? ==> forall k :: k in rules && k !in left && Applies(rules[k], c) ==>
            !Precedes(rules[k], rules[found.value])
        invariant found.None? ==> forall k :: k in rules && k !in left ==> !Applies(rules[k], c)
        decreases left
      {
        var id :| id in left;
        left := left - {id};
        if Applies(rules[id], c) && (found.None? || Precedes(rules[id], rules[found.value])) {
          found := Some(id);
        }
      }
    }

    method CountOpen(account: Id, organization: Id, member: Id) returns (count: nat)
      ensures count == |OpenIds(conversations, account, organization, member)|
    {
      var ids := set id | id in conversations && CountsFor(conversations[id], account, organization, member);
      assert ids == OpenIds(conversations, account, organization, member);
      return |ids|;
    }

    /** The loop filling `counts`, and the minimum over it. */
    method LeastOpenMember(account: Id, organization: Id, members: seq<Id>) returns (i: nat)
      requires members != []
      ensures IsLeast(Loads(conversations, account, organization, members), i)
    {
      var counts: seq<nat> := [];
      ghost var loads := Loads(conversations, account, organization, members);
      for k := 0 to |members|
        invariant |counts| == k && forall j :: 0 <= j < k ==> counts[j] == loads[j]
      {
        var count := CountOpen(account, organization, members[k]);
        counts := counts + [count];
      }
      i := 0;
      for k := 1 to |members|
        invariant i < k && forall j :: 0 <= j < k ==> counts[i] <= counts[j]
        invariant forall j :: 0 <= j < i ==> counts[i] < counts[j]
      {
        if counts[k] < counts[i] {
          i := k;
        }
      }
    }

    method NextMember(members: seq<Id>, last: Option<Id>) returns (i: nat)
      requires members != []
      ensures i < |members| && IsNext(members, last, i)
    {
      if last.None? {
        return 0;
      }
      for k := 0 to |members|
        invariant forall j :: 0 <= j < k ==> members[j] != last.value
      {
        if members[k] == last.value {
          assert IndexOf(members, last.value, k);
          return (k + 1) % |members|;
        }
      }
      return 0;
    }

    /** auto_assign_conversation */
    method AutoAssign(id: Id) returns (selected: Option<Id>)
      requires id in conversations
      modifies this`rules, this`conversations
      ensures selected.None? ==> rules == old(rules) && conversations == old(conversations)
      ensures selected.None? ==>
                || (forall r :: r in rules ==> !Applies(rules[r], conversations[id]))
                || (exists r :: IsFirstRule(rules, r, conversations[id]) && Team(teams, rules[r]) == [])
      ensures selected.Some? ==>
                && conversations == old(conversations)[id := old(conversations)[id].(assignee := selected)]
                && exists r, i: nat ::
                     AssignsBy(teams, old(rules), old(conversations), old(conversations)[id], r, i, selected, rules)
    {
      var c := conversations[id];
      var found := FirstRule(c);
      if found.None? {
        return None;
      }
      var rule := rules[found.value];
      var members := Team(teams, rule);
      if members == [] {
        return None;
      }
      var i: nat;
      if rule.strategy == LeastOpen {
        i := LeastOpenMember(c.account, c.organization, members);
      } else {
        i := NextMember(members, rule.lastAssigned);
        rules := rules[found.value := rule.(lastAssigned := Some(members[i]))];
      }
      conversations := conversations[id := c.(assignee := Some(members[i]))];
      selected := Some(members[i]);
      assert AssignsBy(teams, old(rules), old(conversations), c, found.value, i, selected, rules);
    }
  }
}
