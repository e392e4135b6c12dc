/** How evenly the two strategies spread conversations over a fixed team. */
module AssignmentBalance {
  import opened Common
  import opened Assignment

  /** Every member holds ⌊m/n⌋ or ⌈m/n⌉ of m conversations. */
  ghost predicate Balanced(loads: seq<nat>, m: nat)
    requires loads != []
  {
    forall j :: 0 <= j < |loads| ==> m / |loads| <= loads[j] <= (m + |loads| - 1) / |loads|
  }

  /** q rounds and r more, spread as q or q + 1 each, is balanced. */
  lemma SpreadIsBalanced(loads: seq<nat>, m: nat, q: nat, r: nat)
    requires loads != [] && r < |loads| && m == Rounds(|loads|, q) + r
    requires forall j :: 0 <= j < |loads| ==> q <= loads[j] <= if r == 0 then q else q + 1
    ensures Balanced(loads, m)
  {
    var n := |loads|;
    FloorFromRounds(m, n, q);
    FloorFromRounds(m + n - 1, n, if r == 0 then q else q + 1);
  }

  // ----- round robin

  /** Consecutive picks of a rule whose pointer starts at `last`. */
  ghost predicate RobinPicks(members: seq<Id>, last: Option<Id>, picks: seq<nat>) {
    && (forall k :: 0 <= k < |picks| ==> picks[k] < |members|)
    && (picks != [] ==> IsNext(members, last, picks[0]))
    && forall k :: 0 < k < |picks| ==> IsNext(members, Some(members[picks[k - 1]]), picks[k])
  }

  ghost function Count(picks: seq<nat>, j: nat): nat {
    if picks == [] then 0 else Count(picks[..|picks| - 1], j) + if picks[|picks| - 1] == j then 1 else 0
  }

  /** Steps from s to j round a team of n. */
  function Distance(s: nat, j: nat, n: nat): int {
    if j >= s then j - s else j - s + n
  }

  lemma NextIsOneFurther(members: seq<Id>, i: nat, next: nat)
    requires Distinct(members) && i < |members| && IsNext(members, Some(members[i]), next)
    ensures next == if i + 1 == |members| then 0 else i + 1
  {
    var k: nat :| IndexOf(members, members[i], k) && next == (k + 1) % |members|;
    assert members[k] == members[i];
    StepRound(k, |members|);
  }

  lemma StepRound(k: nat, n: nat)
    requires k < n
    ensures (k + 1) % n == if k + 1 == n then 0 else k + 1
  {
  }

  /** After m picks from position s: m is q rounds and r more, the members less than r steps
      from s are one ahead, and the next pick is the member r steps from s. */
  lemma {:induction false} RobinSpread(members: seq<Id>, last: Option<Id>, picks: seq<nat>, m: nat)
    returns (q: nat, r: nat)
    requires Distinct(members) && RobinPicks(members, last, picks) && m <= |picks| && picks != []
    ensures r < |members| && m == Rounds(|members|, q) + r
    ensures forall j :: 0 <= j < |members| ==>
        Count(picks[..m], j) == q + if Distance(picks[0], j, |members|) < r then 1 else 0
    ensures m < |picks| ==> Distance(picks[0], picks[m], |members|) == r
    decreases m
  {
    var n := |members|;
    if m == 0 {
      q, r := 0, 0;
    } else {
      q, r := RobinSpread(members, last, picks, m - 1);
      assert picks[..m][..m - 1] == picks[..m - 1];
      if m < |picks| {
        NextIsOneFurther(members, picks[m - 1], picks[m]);
      }
      if r + 1 == n {
        q, r := q + 1, 0;
      } else {
        r := r + 1;
      }
    }
  }

  ghost function Shares(picks: seq<nat>, n: nat): (shares: seq<nat>)
    ensures |shares| == n
  {
    seq(n, j requires 0 <= j < n => Count(picks, j))
  }

  /** Any m consecutive round-robin assignments, from any pointer, are balanced. */
  lemma RoundRobinIsBalanced(members: seq<Id>, last: Option<Id>, picks: seq<nat>)
    requires Distinct(members) && members != [] && RobinPicks(members, last, picks)
    ensures Balanced(Shares(picks, |members|), |picks|)
  {
    if picks == [] {
      SpreadIsBalanced(Shares(picks, |members|), 0, 0, 0);
    } else {
      var q, r := RobinSpread(members, last, picks, |picks|);
      assert picks[..|picks|] == picks;
      SpreadIsBalanced(Shares(picks, |members|), |picks|, q, r);
    }
  }

  // ----- round robin over the rules table

  /** One automatic assignment: the table it met, the conversation, the rule that decided and
      the position of the member it chose. */
  datatype Call = Call(table: map<Id, Conversation>, conversation: Conversation, rule: Id, pick: nat)

  /** Consecutive assignments over the rules table, by whatever rules come first; the
      conversations may change in between. */
  ghost predicate IsRuleRun(teams: Teams, rules: seq<map<Id, Rule>>, calls: seq<Call>) {
    && |rules| == |calls| + 1
    && forall k :: 0 <= k < |calls| ==> Assigned(teams, rules[k], calls[k], rules[k + 1])
  }

  ghost predicate Assigned(teams: Teams, rules0: map<Id, Rule>, call: Call, rules1: map<Id, Rule>) {
    exists selected :: AssignsBy(teams, rules0, call.table, call.conversation, call.rule, call.pick, selected, rules1)
  }

  /** The picks the rule `r` decided. */
  ghost function PicksOf(calls: seq<Call>, r: Id): seq<nat> {
    if calls == [] then [] else (if calls[0].rule == r then [calls[0].pick] else []) + PicksOf(calls[1..], r)
  }

  /** An assignment leaves the team and the strategy of every rule, and moves only the pointer
      of the round-robin rule that decided it. */
  lemma AssignmentKeepsRule(teams: Teams, rules0: map<Id, Rule>, call: Call, rules1: map<Id, Rule>, r: Id)
    requires Assigned(teams, rules0, call, rules1) && r in rules0 && rules0[r].strategy == RoundRobin
    ensures r in rules1 && rules1[r].strategy == RoundRobin && Team(teams, rules1[r]) == Team(teams, rules0[r])
    ensures call.rule != r ==> rules1[r] == rules0[r]
    ensures call.rule == r ==>
              && call.pick < |Team(teams, rules0[r])|
              && IsNext(Team(teams, rules0[r]), rules0[r].lastAssigned, call.pick)
              && rules1[r].lastAssigned == Some(Team(teams, rules0[r])[call.pick])
  {
  }

  lemma RobinPicksPrepend(members: seq<Id>, last: Option<Id>, pick: nat, picks: seq<nat>)
    requires pick < |members| && IsNext(members, last, pick) && RobinPicks(members, Some(members[pick]), picks)
    ensures RobinPicks(members, last, [pick] + picks)
  {
    var all := [pick] + picks;
    assert picks != [] ==> all[1] == picks[0];
    forall k | 0 < k < |all| ensures IsNext(members, Some(members[all[k - 1]]), all[k]) {
      assert all[k] == picks[k - 1] && (k > 1 ==> all[k - 1] == picks[k - 2]);
    }
  }

  /** The picks of a round-robin rule follow its pointer, whatever other rules do in between. */
  lemma {:induction false} RuleRunPicks(teams: Teams, rules: seq<map<Id, Rule>>, calls: seq<Call>, r: Id)
    requires IsRuleRun(teams, rules, calls) && r in rules[0] && rules[0][r].strategy == RoundRobin
    ensures RobinPicks(Team(teams, rules[0][r]), rules[0][r].lastAssigned, PicksOf(calls, r))
    decreases |calls|
  {
    if calls != [] {
      AssignmentKeepsRule(teams, rules[0], calls[0], rules[1], r);
      RuleRunPicks(teams, rules[1..], calls[1..], r);
      if calls[0].rule == r {
        RobinPicksPrepend(Team(teams, rules[0][r]), rules[0][r].lastAssigned, calls[0].pick, PicksOf(calls[1..], r));
      } else {
        assert PicksOf(calls, r) == PicksOf(calls[1..], r);
      }
    }
  }

  /** Over any run of automatic assignments each member of a round-robin rule's team gets
      ⌊m/n⌋ or ⌈m/n⌉ of the m conversations the rule decided. */
  lemma RoundRobinRunIsFair(teams: Teams, rules: seq<map<Id, Rule>>, calls: seq<Call>, r: Id)
    requires IsRuleRun(teams, rules, calls) && r in rules[0] && rules[0][r].strategy == RoundRobin
    requires Distinct(Team(teams, rules[0][r])) && Team(teams, rules[0][r]) != []
    ensures Balanced(Shares(PicksOf(calls, r), |Team(teams, rules[0][r])|), |PicksOf(calls, r)|)
  {
    RuleRunPicks(teams, rules, calls, r);
    RoundRobinIsBalanced(Team(teams, rules[0][r]), rules[0][r].lastAssigned, PicksOf(calls, r));
  }

  // ----- which rule decides

  /** The deciding rule is active and made for the conversation's account, organization and channel
      (or any channel); of all such rules it has the lowest priority number, and is the oldest of
      those with that number. */
  lemma FirstRuleExactly(rules: map<Id, Rule>, id: Id, c: Conversation)
    ensures IsFirstRule(rules, id, c) <==>
              && id in rules && IsFor(rules[id], c)
              && forall k :: k in rules && IsFor(rules[k], c) ==>
                   && rules[id].priority <= rules[k].priority
                   && (rules[id].priority == rules[k].priority ==> rules[id].createdAt <= rules[k].createdAt)
  {
    assert forall k :: k in rules ==> (IsFor(rules[k], c) <==> Applies(rules[k], c));
  }

  ghost predicate IsFor(r: Rule, c: Conversation) {
    r.isActive && r.account == c.account && r.organization == c.organization && r.channel in {None, Some(c.channel)}
  }

  /** A least-open rule changes no rule; a round-robin rule only its own pointer. */
  lemma AssignmentMovesPointer(teams: Teams, rules0: map<Id, Rule>, call: Call, rules1: map<Id, Rule>)
    requires Assigned(teams, rules0, call, rules1)
    ensures call.rule in rules0 && rules1.Keys == rules0.Keys
    ensures rules0[call.rule].strategy == LeastOpen ==> rules1 == rules0
    ensures forall k :: k in rules0 ==> rules1[k] == rules0[k].(lastAssigned := rules1[k].lastAssigned)
    ensures forall k :: k in rules0 && k != call.rule ==> rules1[k] == rules0[k]
  {
  }

  lemma ModStep(x: nat, n: nat)
    requires n > 0
    ensures (x + 1) % n == if x % n + 1 == n then 0 else x % n + 1
  {
    assert x == n * (x / n) + x % n;
    if x % n + 1 == n {
      assert x + 1 == n * (x / n + 1);
      ExactMultiple(x / n + 1, 0, n);
    } else {
      ExactMultiple(x / n, x % n + 1, n);
    }
  }

  lemma ExactMultiple(q: nat, r: nat, n: nat)
    requires r < n
    ensures (n * q + r) % n == r
  {
    var x := n * q + r;
    RoundsIsProduct(n, q);
    FloorFromRounds(x, n, q);
    assert x == n * (x / n) + x % n;
  }

  /** Round robin goes round the team in its order: it begins after the member assigned last,
      or with the first if that one has left, and each pick is the next member. */
  lemma {:induction false} RobinFollowsOrder(members: seq<Id>, last: Option<Id>, picks: seq<nat>, k: nat)
    requires Distinct(members) && RobinPicks(members, last, picks) && k < |picks|
    ensures members != [] && picks[k] == (picks[0] + k) % |members|
    ensures last.None? || last.value !in members ==> picks[0] == 0
    ensures forall i :: 0 <= i < |members| && last == Some(members[i]) ==> picks[0] == (i + 1) % |members|
  {
    FirstPick(members, last, picks);
    if k > 0 {
      RobinFollowsOrder(members, last, picks, k - 1);
      NextIsOneFurther(members, picks[k - 1], picks[k]);
      ModStep(picks[0] + k - 1, |members|);
    }
  }

  lemma FirstPick(members: seq<Id>, last: Option<Id>, picks: seq<nat>)
    requires Distinct(members) && RobinPicks(members, last, picks) && picks != []
    ensures picks[0] < |members| && picks[0] == picks[0] % |members|
    ensures last.None? || last.value !in members ==> picks[0] == 0
    ensures forall i :: 0 <= i < |members| && last == Some(members[i]) ==> picks[0] == (i + 1) % |members|
  {
    forall i | 0 <= i < |members| && last == Some(members[i]) ensures picks[0] == (i + 1) % |members| {
      NextIsOneFurther(members, i, picks[0]);
      StepRound(i, |members|);
    }
    ExactMultiple(0, picks[0], |members|);
  }

  // ----- least open

  function Bump(loads: seq<nat>, i: nat): (r: seq<nat>)
    requires i < |loads|
    ensures |r| == |loads|
  {
    loads[i := loads[i] + 1]
  }

  lemma OpenIdsAfter(table: map<Id, Conversation>, id: Id, c: Conversation, member: Id)
    requires id !in table && c.status == Open
    ensures OpenIds(table[id := c], c.account, c.organization, member)
            == OpenIds(table, c.account, c.organization, member) + if c.assignee == Some(member) then {id} else {}
    ensures id !in OpenIds(table, c.account, c.organization, member)
  {
  }

  lemma OpenCountAfter(table: map<Id, Conversation>, id: Id, c: Conversation, member: Id)
    requires id !in table && c.status == Open
    ensures |OpenIds(table[id := c], c.account, c.organization, member)|
            == |OpenIds(table, c.account, c.organization, member)| + if c.assignee == Some(member) then 1 else 0
  {
    OpenIdsAfter(table, id, c, member);
  }

  /** A new open conversation leaves the loads alone while it is unassigned; assigning it to
      member i adds one to that member's load and to no other. */
  lemma ArrivalBumps(table: map<Id, Conversation>, id: Id, c: Conversation, members: seq<Id>, i: nat)
    requires id !in table && c.assignee.None? && c.status == Open
    requires Distinct(members) && i < |members|
    ensures Loads(table[id := c], c.account, c.organization, members)
        == Loads(table, c.account, c.organization, members)
    ensures Loads(table[id := c.(assignee := Some(members[i]))], c.account, c.organization, members)
            == Bump(Loads(table, c.account, c.organization, members), i)
  {
    var d := c.(assignee := Some(members[i]));
    var before := Loads(table, c.account, c.organization, members);
    forall j | 0 <= j < |members|
      ensures Loads(table[id := c], c.account, c.organization, members)[j] == before[j]
      ensures Loads(table[id := d], c.account, c.organization, members)[j] == Bump(before, i)[j]
    {
      OpenCountAfter(table, id, c, members[j]);
      OpenCountAfter(table, id, d, members[j]);
    }
  }

  /** No load exceeds another by more than g. */
  ghost predicate GapAtMost(loads: seq<nat>, g: nat) {
    forall i, j :: 0 <= i < |loads| && 0 <= j < |loads| ==> loads[i] <= loads[j] + g
  }

  /** Consecutive arrivals, each given to the earliest least loaded member. */
  ghost predicate LeastPicks(loads: seq<nat>, picks: seq<nat>)
    decreases |picks|
  {
    picks != [] ==> IsLeast(loads, picks[0]) && LeastPicks(Bump(loads, picks[0]), picks[1..])
  }

  ghost function AfterPicks(loads: seq<nat>, picks: seq<nat>): (r: seq<nat>)
    requires LeastPicks(loads, picks)
    ensures |r| == |loads|
    decreases |picks|
  {
    if picks == [] then loads else AfterPicks(Bump(loads, picks[0]), picks[1..])
  }

  /** The gap never exceeds the larger of the initial gap and one. */
  lemma {:induction false} LeastOpenKeepsGap(loads: seq<nat>, picks: seq<nat>, g: nat)
    requires LeastPicks(loads, picks) && GapAtMost(loads, g)
    ensures GapAtMost(AfterPicks(loads, picks), Max(g, 1))
    decreases |picks|
  {
    if picks != [] {
      LeastOpenKeepsGap(Bump(loads, picks[0]), picks[1..], Max(g, 1));
    }
  }

  ghost function Sum(loads: seq<nat>): nat {
    if loads == [] then 0 else Sum(loads[..|loads| - 1]) + loads[|loads| - 1]
  }

  lemma {:induction false} BumpAddsOne(loads: seq<nat>, i: nat)
    requires i < |loads|
    ensures Sum(Bump(loads, i)) == Sum(loads) + 1
  {
    var n := |loads| - 1;
    if i == n {
      assert Bump(loads, i)[..n] == loads[..n];
    } else {
      assert Bump(loads, i)[..n] == Bump(loads[..n], i);
      BumpAddsOne(loads[..n], i);
    }
  }

  lemma {:induction false} PicksAddUp(loads: seq<nat>, picks: seq<nat>)
    requires LeastPicks(loads, picks)
    ensures Sum(AfterPicks(loads, picks)) == Sum(loads) + |picks|
    decreases |picks|
  {
    if picks != [] {
      BumpAddsOne(loads, picks[0]);
      PicksAddUp(Bump(loads, picks[0]), picks[1..]);
    }
  }

  ghost function Extras(loads: seq<nat>, q: nat): nat {
    if loads == [] then 0 else Extras(loads[..|loads| - 1], q) + if loads[|loads| - 1] > q then 1 else 0
  }

  /** Loads of q or q + 1 sum to q rounds and one for each of the larger ones. */
  lemma {:induction false} SumOfTwoLevels(loads: seq<nat>, q: nat)
    requires forall j :: 0 <= j < |loads| ==> q <= loads[j] <= q + 1
    ensures Sum(loads) == Rounds(q, |loads|) + Extras(loads, q)
    ensures Extras(loads, q) <= |loads|
    ensures (exists j :: 0 <= j < |loads| && loads[j] == q) ==> Extras(loads, q) < |loads|
    ensures Extras(loads, q) == 0 ==> forall j :: 0 <= j < |loads| ==> loads[j] == q
  {
    if loads != [] {
      var front := loads[..|loads| - 1];
      SumOfTwoLevels(front, q);
      if j :| 0 <= j < |loads| && loads[j] == q {
        assert j < |front| ==> front[j] == q;
      }
      if Extras(loads, q) == 0 {
        forall j | 0 <= j < |loads| ensures loads[j] == q { assert j < |front| ==> loads[j] == front[j]; }
      }
    }
  }

  lemma RoundsCommute(a: nat, b: nat)
    ensures Rounds(a, b) == Rounds(b, a)
  {
    RoundsIsProduct(a, b);
    RoundsIsProduct(b, a);
  }

  lemma {:induction false} LeastLoad(loads: seq<nat>) returns (i: nat)
    requires loads != []
    ensures i < |loads| && forall j :: 0 <= j < |loads| ==> loads[i] <= loads[j]
  {
    i := 0;
    if |loads| > 1 {
      var front := loads[..|loads| - 1];
      var k := LeastLoad(front);
      i := if loads[|loads| - 1] < loads[k] then |loads| - 1 else k;
      forall j | 0 <= j < |loads| ensures loads[i] <= loads[j] { assert j < |front| ==> loads[j] == front[j]; }
    }
  }

  lemma SmallGapIsBalanced(loads: seq<nat>)
    requires loads != [] && GapAtMost(loads, 1)
    ensures Balanced(loads, Sum(loads))
  {
    var i := LeastLoad(loads);
    var q := loads[i];
    SumOfTwoLevels(loads, q);
    RoundsCommute(q, |loads|);
    SpreadIsBalanced(loads, Sum(loads), q, Extras(loads, q));
  }

  lemma {:induction false} IdleSum(loads: seq<nat>)
    requires forall j :: 0 <= j < |loads| ==> loads[j] == 0
    ensures Sum(loads) == 0
  {
    if loads != [] {
      IdleSum(loads[..|loads| - 1]);
    }
  }

  /** From an idle team, after any number of arrivals the least-open loads are balanced. */
  lemma LeastOpenIsBalanced(n: nat, picks: seq<nat>)
    requires n > 0 && LeastPicks(seq(n, _ => 0), picks)
    ensures Balanced(AfterPicks(seq(n, _ => 0), picks), |picks|)
  {
    var idle: seq<nat> := seq(n, _ => 0);
    LeastOpenKeepsGap(idle, picks, 0);
    PicksAddUp(idle, picks);
    IdleSum(idle);
    SmallGapIsBalanced(AfterPicks(idle, picks));
  }

  /** The first r members are one ahead of the others. */
  ghost predicate IsLevel(loads: seq<nat>, q: nat, r: nat) {
    r < |loads| && forall j :: 0 <= j < |loads| ==> loads[j] == q + if j < r then 1 else 0
  }

  /** Ties go to the oldest member: from an idle team, or one served up to some member, the
      least-open rule serves the members in their order. */
  lemma {:induction false} LeastOpenServesInOrder(loads: seq<nat>, picks: seq<nat>, q: nat, r: nat, k: nat)
    requires LeastPicks(loads, picks) && IsLevel(loads, q, r) && k < |picks|
    ensures picks[k] == (r + k) % |loads|
    decreases |picks|
  {
    assert loads[r] == q;
    assert picks[0] == r;
    if k > 0 {
      var next := if r + 1 == |loads| then 0 else r + 1;
      assert IsLevel(Bump(loads, r), if next == 0 then q + 1 else q, next);
      LeastOpenServesInOrder(Bump(loads, r), picks[1..], if next == 0 then q + 1 else q, next, k - 1);
      WrapOnce(r, k, |loads|);
    }
  }

  lemma WrapOnce(r: nat, k: nat, n: nat)
    requires r < n && k > 0
    ensures ((if r + 1 == n then 0 else r + 1) + (k - 1)) % n == (r + k) % n
  {
    if r + 1 == n {
      assert r + k == (k - 1) + n;
      ModPeriod(k - 1, n);
    }
  }

  lemma ModPeriod(x: nat, n: nat)
    requires n > 0
    ensures (x + n) % n == x % n
  {
    assert x + n == n * (x / n + 1) + x % n;
    ExactMultiple(x / n + 1, x % n, n);
  }

  /** Open and pending conversations weigh the same; closing one, or marking it as spam, takes one
      off its member's load. */
  lemma ClosingFrees(table: map<Id, Conversation>, id: Id, member: Id, status: Status)
    requires id in table && table[id].assignee == Some(member) && table[id].status in {Open, Pending}
    ensures var c := table[id];
            var before := |OpenIds(table, c.account, c.organization, member)|;
            var after := |OpenIds(table[id := c.(status := status)], c.account, c.organization, member)|;
            before >= 1 && after == if status in {Closed, Spam} then before - 1 else before
  {
    var c := table[id];
    var before := OpenIds(table, c.account, c.organization, member);
    var after := OpenIds(table[id := c.(status := status)], c.account, c.organization, member);
    assert id in before;
    assert after == if status in {Closed, Spam} then before - {id} else before;
  }

  /** Conversations of other members, organizations or accounts never weigh on a member. */
  lemma OthersDoNotWeigh(table: map<Id, Conversation>, id: Id, c: Conversation, account: Id, organization: Id,
                         member: Id)
    requires c.account != account || c.organization != organization || c.assignee != Some(member)
    requires id in table ==> table[id] == c.(status := table[id].status)
    ensures OpenIds(table[id := c], account, organization, member) == OpenIds(table, account, organization, member)
  {
  }

  // ----- least open over the conversations table

  datatype Arrival = Arrival(id: Id, conversation: Conversation)

  /** New, open and unassigned conversations of one organization arrive one by one and each is
      given to a member the least-open rule picks on the table it finds. */
  ghost predicate LeastOpenRun(table: map<Id, Conversation>, account: Id, organization: Id, members: seq<Id>,
                               arrivals: seq<Arrival>, picks: seq<nat>)
    decreases |arrivals|
  {
    && |picks| == |arrivals|
    && (arrivals != [] ==>
          var Arrival(id, c) := arrivals[0];
          && id !in table && c.account == account && c.organization == organization
          && c.assignee.None? && c.status == Open
          && IsLeast(Loads(table[id := c], account, organization, members), picks[0])
          && LeastOpenRun(table[id := c.(assignee := Some(members[picks[0]]))], account, organization, members,
                          arrivals[1..], picks[1..]))
  }

  ghost function AfterArrivals(table: map<Id, Conversation>, account: Id, organization: Id, members: seq<Id>,
                               arrivals: seq<Arrival>, picks: seq<nat>): map<Id, Conversation>
    requires LeastOpenRun(table, account, organization, members, arrivals, picks)
    decreases |arrivals|
  {
    if arrivals == [] then table
    else
      var Arrival(id, c) := arrivals[0];
      AfterArrivals(table[id := c.(assignee := Some(members[picks[0]]))], account, organization, members,
                    arrivals[1..], picks[1..])
  }

  lemma {:induction false} RunFollowsLoads(table: map<Id, Conversation>, account: Id, organization: Id,
                                           members: seq<Id>, arrivals: seq<Arrival>, picks: seq<nat>)
    requires Distinct(members) && LeastOpenRun(table, account, organization, members, arrivals, picks)
    ensures LeastPicks(Loads(table, account, organization, members), picks)
    ensures Loads(AfterArrivals(table, account, organization, members, arrivals, picks), account, organization, members)
            == AfterPicks(Loads(table, account, organization, members), picks)
    decreases |arrivals|
  {
    if arrivals != [] {
      var Arrival(id, c) := arrivals[0];
      ArrivalBumps(table, id, c, members, picks[0]);
      RunFollowsLoads(table[id := c.(assignee := Some(members[picks[0]]))], account, organization, members,
                      arrivals[1..], picks[1..]);
    }
  }

  /** Over any such run the gap between the loads of two members stays within the larger of the
      initial gap and one; a team that starts idle ends with ⌊m/n⌋ or ⌈m/n⌉ each. */
  lemma LeastOpenRunIsFair(table: map<Id, Conversation>, account: Id, organization: Id, members: seq<Id>,
                               arrivals: seq<Arrival>, picks: seq<nat>, g: nat)
    requires Distinct(members) && members != [] && LeastOpenRun(table, account, organization, members, arrivals, picks)
    ensures var before := Loads(table, account, organization, members);
            var later := AfterArrivals(table, account, organization, members, arrivals, picks);
            var after := Loads(later, account, organization, members);
            && (GapAtMost(before, g) ==> GapAtMost(after, Max(g, 1)))
            && ((forall j :: 0 <= j < |members| ==> before[j] == 0) ==> Balanced(after, |arrivals|))
  {
    var before := Loads(table, account, organization, members);
    RunFollowsLoads(table, account, organization, members, arrivals, picks);
    if GapAtMost(before, g) {
      LeastOpenKeepsGap(before, picks, g);
    }
    if forall j :: 0 <= j < |members| ==> before[j] == 0 {
      assert before == seq(|members|, _ => 0);
      LeastOpenIsBalanced(|members|, picks);
    }
  }
}
