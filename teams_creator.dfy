/**
 * The fixed team configuration, the shift resolver and the capacity
 * calculator (MoneyBase.Infrastructure/Utils/TeamsCreator.cs).
 */
module Utils {
  import opened Wrappers
  import opened Domain
  import opened Sorting

  const OverflowTeamName: string := "Team Overflow"

  // ---------------------------------------------------------------- shift resolver

  /** The resolver's window test: a shift whose start is not before its end wraps past midnight. */
  predicate IsWorkingAt(shift: Shift, timeOfDay: int)
  {
    if shift.start < shift.end then shift.start <= timeOfDay <= shift.end
    else timeOfDay >= shift.start || timeOfDay <= shift.end
  }

  /** `OrderByDescending(x => x.Shift.Start)` is the stable sort on the negated start. */
  function StartDescending(team: Team): int
  {
    -team.shift.start
  }

  /** The `foreach` with early return: the first team, in the given order, on duty at `timeOfDay`. */
  function FirstWorking(ordered: seq<Team>, timeOfDay: int): (r: Option<Team>)
    ensures r.Some? ==> r.value in ordered && IsWorkingAt(r.value.shift, timeOfDay)
    ensures r.None? <==> forall team :: team in ordered ==> !IsWorkingAt(team.shift, timeOfDay)
  {
    if ordered == [] then None
    else if IsWorkingAt(ordered[0].shift, timeOfDay) then Some(ordered[0])
    else FirstWorking(ordered[1..], timeOfDay)
  }

  lemma SameMembers<T>(a: seq<T>, b: seq<T>)
    requires multiset(a) == multiset(b)
    ensures forall x :: x in a <==> x in b
  {
    forall x
      ensures x in a <==> x in b
    {
      assert x in a <==> x in multiset(a);
      assert x in b <==> x in multiset(b);
    }
  }

  lemma FirstWorkingStep(ordered: seq<Team>, i: nat, timeOfDay: int)
    requires i < |ordered|
    ensures FirstWorking(ordered[i..], timeOfDay) ==
            if IsWorkingAt(ordered[i].shift, timeOfDay) then Some(ordered[i]) else FirstWorking(ordered[i + 1..], timeOfDay)
  {
    assert ordered[i..][1..] == ordered[i + 1..];
  }

  /** `GetActiveTeamInCurrentTime`, at a given time of day. */
  function ActiveTeam(teams: seq<Team>, timeOfDay: int): (r: Option<Team>)
    ensures r.Some? ==> r.value in teams && IsWorkingAt(r.value.shift, timeOfDay)
    ensures r.None? <==> forall team :: team in teams ==> !IsWorkingAt(team.shift, timeOfDay)
  {
    var ordered := StableSort(teams, StartDescending);
    SameMembers(ordered, teams);
    FirstWorking(ordered, timeOfDay)
  }

  /** `x` wins over the best of the teams after it unless one of those starts strictly later. */
  function Prefer(x: Team, best: Option<Team>, timeOfDay: int): Option<Team>
  {
    if IsWorkingAt(x.shift, timeOfDay) && (best.None? || best.value.shift.start <= x.shift.start)
    then Some(x) else best
  }

  /**
   * Reference definition of the resolver, without sorting: among the teams on
   * duty, one of greatest start, and the first listed among equal starts.
   */
  function BestWorking(teams: seq<Team>, timeOfDay: int): Option<Team>
  {
    if teams == [] then None else Prefer(teams[0], BestWorking(teams[1..], timeOfDay), timeOfDay)
  }

  lemma {:induction false} BestWorkingSpec(teams: seq<Team>, timeOfDay: int)
    ensures BestWorking(teams, timeOfDay).None? <==>
              forall i :: 0 <= i < |teams| ==> !IsWorkingAt(teams[i].shift, timeOfDay)
    ensures BestWorking(teams, timeOfDay).Some? ==>
              exists i :: 0 <= i < |teams| && teams[i] == BestWorking(teams, timeOfDay).value &&
                IsWorkingAt(teams[i].shift, timeOfDay) &&
                forall j :: 0 <= j < |teams| && IsWorkingAt(teams[j].shift, timeOfDay) ==>
                  teams[j].shift.start < teams[i].shift.start ||
                  (teams[j].shift.start == teams[i].shift.start && i <= j)
    decreases |teams|
  {
    if teams != [] {
      var rest := teams[1..];
      BestWorkingSpec(rest, timeOfDay);
      var best := BestWorking(rest, timeOfDay);
      var x := teams[0];
      if IsWorkingAt(x.shift, timeOfDay) && (best.None? || best.value.shift.start <= x.shift.start) {
        forall j | 0 <= j < |teams| && IsWorkingAt(teams[j].shift, timeOfDay)
          ensures teams[j].shift.start < x.shift.start || (teams[j].shift.start == x.shift.start && 0 <= j)
        {
          if j > 0 {
            assert rest[j - 1] == teams[j];
            var k :| 0 <= k < |rest| && rest[k] == best.value && IsWorkingAt(rest[k].shift, timeOfDay) &&
              forall j' :: 0 <= j' < |rest| && IsWorkingAt(rest[j'].shift, timeOfDay) ==>
                rest[j'].shift.start < rest[k].shift.start ||
                (rest[j'].shift.start == rest[k].shift.start && k <= j');
            assert teams[j].shift.start <= best.value.shift.start;
          }
        }
        assert teams[0] == BestWorking(teams, timeOfDay).value;
      } else if best.Some? {
        var k :| 0 <= k < |rest| && rest[k] == best.value && IsWorkingAt(rest[k].shift, timeOfDay) &&
          forall j' :: 0 <= j' < |rest| && IsWorkingAt(rest[j'].shift, timeOfDay) ==>
            rest[j'].shift.start < rest[k].shift.start ||
            (rest[j'].shift.start == rest[k].shift.start && k <= j');
        assert teams[k + 1] == best.value;
        forall j | 0 <= j < |teams| && IsWorkingAt(teams[j].shift, timeOfDay)
          ensures teams[j].shift.start < teams[k + 1].shift.start ||
                  (teams[j].shift.start == teams[k + 1].shift.start && k + 1 <= j)
        {
          if j > 0 {
            assert rest[j - 1] == teams[j];
          }
        }
      } else {
        forall i | 0 <= i < |teams|
          ensures !IsWorkingAt(teams[i].shift, timeOfDay)
        {
          if i > 0 {
            assert rest[i - 1] == teams[i];
          }
        }
      }
    }
  }

  lemma {:induction false} FirstWorkingAfterInsert(x: Team, s: seq<Team>, timeOfDay: int)
    requires SortedBy(s, StartDescending)
    ensures FirstWorking(Insert(x, s, StartDescending), timeOfDay) ==
            Prefer(x, FirstWorking(s, timeOfDay), timeOfDay)
    decreases |s|
  {
    if s == [] || StartDescending(x) <= StartDescending(s[0]) {
      var r := [x] + s;
      assert Insert(x, s, StartDescending) == r;
      assert r[1..] == s;
      var first := FirstWorking(s, timeOfDay);
      if first.Some? {
        SortedPrefixBound(s, StartDescending, first.value);
      }
    } else {
      var rest := Insert(x, s[1..], StartDescending);
      assert Insert(x, s, StartDescending) == [s[0]] + rest;
      assert ([s[0]] + rest)[1..] == rest;
      if !IsWorkingAt(s[0].shift, timeOfDay) {
        SortedTail(s, StartDescending);
        FirstWorkingAfterInsert(x, s[1..], timeOfDay);
      }
    }
  }

  /** Sort-then-scan agrees with the reference definition. */
  lemma {:induction false} ActiveTeamIsBestWorking(teams: seq<Team>, timeOfDay: int)
    ensures ActiveTeam(teams, timeOfDay) == BestWorking(teams, timeOfDay)
    decreases |teams|
  {
    if teams != [] {
      ActiveTeamIsBestWorking(teams[1..], timeOfDay);
      FirstWorkingAfterInsert(teams[0], StableSort(teams[1..], StartDescending), timeOfDay);
    }
  }

  /**
   * `Shift.IsActiveNow` against the resolver's window: they agree on a shift
   * that does not wrap; a wrapping shift is never active by `IsActiveNow`; a
   * shift with equal start and end is on duty all day for the resolver but
   * active only at its start by `IsActiveNow`.
   */
  lemma IsActiveNowVersusWindow(shift: Shift, timeOfDay: int)
    ensures shift.start < shift.end ==> (shift.IsActiveNow(timeOfDay) <==> IsWorkingAt(shift, timeOfDay))
    ensures shift.start > shift.end ==> !shift.IsActiveNow(timeOfDay)
    ensures shift.start == shift.end ==>
              IsWorkingAt(shift, timeOfDay) && (shift.IsActiveNow(timeOfDay) <==> timeOfDay == shift.start)
  {
  }

  // ---------------------------------------------------------------- capacity calculator

  function Levels(agents: seq<Agent>): (levels: seq<AgentsLevel>)
    ensures |levels| == |agents|
    ensures forall i :: 0 <= i < |agents| ==> levels[i] == agents[i].agentLevel
  {
    seq(|agents|, i requires 0 <= i < |agents| => agents[i].agentLevel)
  }

  /** Total efficiency of a list of levels, in tenths. */
  function SumTenths(levels: seq<AgentsLevel>): nat
  {
    if levels == [] then 0 else EfficiencyTenths(levels[0]) + SumTenths(levels[1..])
  }

  /** Reference capacity: 1.5 times the team's total efficiency times 10, truncated; 0 for no team. */
  function Capacity(team: Option<Team>): nat
  {
    if team.None? then 0 else 3 * SumTenths(Levels(team.value.agents)) / 2
  }

  datatype Group = Group(level: AgentsLevel, count: nat)

  function AddToGroups(groups: seq<Group>, level: AgentsLevel): seq<Group>
  {
    if groups == [] then [Group(level, 1)]
    else if groups[0].level == level then [Group(level, groups[0].count + 1)] + groups[1..]
    else [groups[0]] + AddToGroups(groups[1..], level)
  }

  /** `GroupBy(c => c.AgentLevel)`: one group per level, in order of first appearance. */
  function GroupByLevel(levels: seq<AgentsLevel>): seq<Group>
  {
    if levels == [] then []
    else AddToGroups(GroupByLevel(levels[..|levels| - 1]), levels[|levels| - 1])
  }

  /** What the grouped loop adds up: efficiency times count for each group. */
  function GroupsAmount(groups: seq<Group>): int
  {
    if groups == [] then 0
    else EfficiencyTenths(groups[0].level) * groups[0].count + GroupsAmount(groups[1..])
  }

  lemma {:induction false} AddToGroupsAmount(groups: seq<Group>, level: AgentsLevel)
    ensures GroupsAmount(AddToGroups(groups, level)) == GroupsAmount(groups) + EfficiencyTenths(level)
    decreases |groups|
  {
    if groups == [] {
    } else if groups[0].level == level {
      var r := [Group(level, groups[0].count + 1)] + groups[1..];
      assert r[1..] == groups[1..];
    } else {
      var r := [groups[0]] + AddToGroups(groups[1..], level);
      assert r[1..] == AddToGroups(groups[1..], level);
      AddToGroupsAmount(groups[1..], level);
    }
  }

  /** Grouping does not change the total: the grouped sum is the plain sum over agents. */
  lemma {:induction false} GroupedAmountIsTotal(levels: seq<AgentsLevel>)
    ensures GroupsAmount(GroupByLevel(levels)) == SumTenths(levels)
    decreases |levels|
  {
    if levels != [] {
      var n := |levels| - 1;
      GroupedAmountIsTotal(levels[..n]);
      AddToGroupsAmount(GroupByLevel(levels[..n]), levels[n]);
      assert levels == levels[..n] + [levels[n]];
      SumTenthsConcat(levels[..n], [levels[n]]);
      assert [levels[n]][1..] == [];
    }
  }

  lemma {:induction false} SumTenthsConcat(a: seq<AgentsLevel>, b: seq<AgentsLevel>)
    ensures SumTenths(a + b) == SumTenths(a) + SumTenths(b)
    decreases |a|
  {
    if a == [] {
      assert a + b == b;
    } else {
      assert (a + b)[1..] == a[1..] + b;
      SumTenthsConcat(a[1..], b);
    }
  }

  lemma {:induction false} SumTenthsRemove(b: seq<AgentsLevel>, k: nat)
    requires k < |b|
    ensures SumTenths(b) == EfficiencyTenths(b[k]) + SumTenths(b[..k] + b[k + 1..])
  {
    var tail := [b[k]] + b[k + 1..];
    assert b == b[..k] + tail;
    SumTenthsConcat(b[..k], tail);
    assert tail[1..] == b[k + 1..];
    SumTenthsConcat(b[..k], b[k + 1..]);
  }

  lemma MultisetRemove<T>(b: seq<T>, k: nat)
    requires k < |b|
    ensures multiset(b[..k] + b[k + 1..]) == multiset(b) - multiset{b[k]}
  {
    assert b == b[..k] + [b[k]] + b[k + 1..];
  }

  /** The capacity does not depend on the order of the agents. */
  lemma {:induction false} SumTenthsPermutation(a: seq<AgentsLevel>, b: seq<AgentsLevel>)
    requires multiset(a) == multiset(b)
    ensures SumTenths(a) == SumTenths(b)
    decreases |a|
  {
    if a == [] {
      assert |b| == |multiset(b)| == 0;
    } else {
      var x := a[0];
      assert a == [x] + a[1..];
      assert x in multiset(b);
      var k :| 0 <= k < |b| && b[k] == x;
      SumTenthsRemove(b, k);
      MultisetRemove(b, k);
      assert multiset(a[1..]) == multiset(a) - multiset{x};
      SumTenthsPermutation(a[1..], b[..k] + b[k + 1..]);
    }
  }

  lemma CapacityIgnoresAgentOrder(team: Team, other: Team)
    requires multiset(Levels(team.agents)) == multiset(Levels(other.agents))
    ensures Capacity(Some(team)) == Capacity(Some(other))
  {
    SumTenthsPermutation(Levels(team.agents), Levels(other.agents));
  }

  /** `QueueSize`: the grouped loop computes the reference capacity. */
  method QueueSize(currentTeam: Option<Team>) returns (size: int)
    ensures size == Capacity(currentTeam)
  {
    var groups := if currentTeam.Some? then GroupByLevel(Levels(currentTeam.value.agents)) else [];
    var amount := 0;
    for i := 0 to |groups|
      invariant amount + GroupsAmount(groups[i..]) == GroupsAmount(groups)
    {
      assert groups[i..][1..] == groups[i + 1..];
      amount := amount + EfficiencyTenths(groups[i].level) * groups[i].count;
    }
    assert groups[|groups|..] == [];
    if currentTeam.Some? {
      GroupedAmountIsTotal(Levels(currentTeam.value.agents));
    }
    size := 3 * amount / 2;
  }

  // ---------------------------------------------------------------- agent lookup

  /** `FirstOrDefault(x => x.Id == agentId)`: a null id matches no agent. */
  function FindAgent(agents: seq<Agent>, agentId: Option<Guid>): (r: Option<Agent>)
    ensures r.Some? ==> r.value in agents && agentId == Some(r.value.id)
    ensures r.None? <==> agentId.None? || forall a :: a in agents ==> a.id != agentId.value
  {
    if agentId.None? || agents == [] then None
    else if agents[0].id == agentId.value then Some(agents[0])
    else FindAgent(agents[1..], agentId)
  }

  /** `FirstOrDefault(i => i.TeamName == name)`. */
  function FindTeam(teams: seq<Team>, name: string): (r: Option<Team>)
    ensures r.Some? ==> r.value in teams && r.value.teamName == name
    ensures r.None? <==> forall team :: team in teams ==> team.teamName != name
  {
    if teams == [] then None
    else if teams[0].teamName == name then Some(teams[0])
    else FindTeam(teams[1..], name)
  }

  /** The agents of all the teams, team by team. */
  function AgentsOf(teams: seq<Team>): seq<Agent>
  {
    if teams == [] then [] else teams[0].agents + AgentsOf(teams[1..])
  }

  lemma {:induction false} TeamAgentsInAgentsOf(teams: seq<Team>, team: Team)
    requires team in teams
    ensures forall a :: a in team.agents ==> a in AgentsOf(teams)
    decreases |teams|
  {
    if teams[0] != team {
      TeamAgentsInAgentsOf(teams[1..], team);
    }
  }

  predicate DistinctIds(agents: seq<Agent>)
  {
    forall i, j :: 0 <= i < j < |agents| ==> agents[i].id != agents[j].id
  }

  lemma SliceIdsDistinct(ids: seq<Guid>, from: nat, to: nat)
    requires from <= to <= |ids|
    requires forall i, j :: 0 <= i < j < |ids| ==> ids[i] != ids[j]
    ensures forall i, j :: 0 <= i < j < to - from ==> ids[from..to][i] != ids[from..to][j]
  {
  }

  /** The agents of one team, one new agent per level, with the given ids. */
  method NewAgents(ids: seq<Guid>, levels: seq<AgentsLevel>) returns (agents: seq<Agent>)
    requires |ids| == |levels|
    ensures Levels(agents) == levels
    ensures forall i :: 0 <= i < |agents| ==> agents[i].id == ids[i]
    ensures forall a :: a in agents ==> fresh(a) && a.currentChatCount == 0
  {
    agents := [];
    for i := 0 to |levels|
      invariant |agents| == i
      invariant forall k :: 0 <= k < i ==> agents[k].agentLevel == levels[k] && agents[k].id == ids[k]
      invariant forall a :: a in agents ==> fresh(a) && a.currentChatCount == 0
    {
      var agent := new Agent(ids[i], levels[i]);
      agents := agents + [agent];
    }
  }

  // ---------------------------------------------------------------- TeamsCreator

  class TeamsCreator {
    const teams: seq<Team>

    /** No team lists two agents with one id, and `allAgents` covers every team's agents. */
    ghost predicate Valid()
    {
      forall team :: team in teams ==>
        DistinctIds(team.agents) && forall a :: a in team.agents ==> a in allAgents
    }

    /** The configuration built by the constructor. */
    predicate Configured()
    {
      |teams| == 4 &&
      teams[0].teamName == "Team A" &&
      teams[0].shift == Shift(OfficeTime, FromHours(8), FromHours(16)) &&
      Levels(teams[0].agents) == [TeamLead, Mid, Mid, Junior] &&
      teams[1].teamName == "Team B" &&
      teams[1].shift == Shift(NightShift, FromHours(17), FromHours(0)) &&
      Levels(teams[1].agents) == [Senior, Mid, Junior, Junior] &&
      teams[2].teamName == "Team C" &&
      teams[2].shift == Shift(MidNightShift, FromHours(0), FromHours(8)) &&
      Levels(teams[2].agents) == [Mid, Mid] &&
      teams[3].teamName == OverflowTeamName &&
      teams[3].shift == Shift(OfficeTime, FromHours(8), FromHours(17)) &&
      Levels(teams[3].agents) == [Junior, Junior, Junior, Junior, Junior, Junior]
    }

    /** Every agent of every configured team, team by team: what the decrement may change. */
    ghost const allAgents: seq<Agent>

    /** Builds the four teams; `ids` stands for the sixteen `Guid.NewGuid()` agent ids. */
    constructor (ids: seq<Guid>)
      requires |ids| == 16
      requires forall i, j :: 0 <= i < j < |ids| ==> ids[i] != ids[j]
      ensures Configured() && Valid()
      ensures allAgents == AgentsOf(teams)
      ensures forall a :: a in allAgents ==> fresh(a) && a.currentChatCount == 0
    {
      var agentsA := NewAgents(ids[0..4], [TeamLead, Mid, Mid, Junior]);
      var agentsB := NewAgents(ids[4..8], [Senior, Mid, Junior, Junior]);
      var agentsC := NewAgents(ids[8..10], [Mid, Mid]);
      var agentsOverflow := NewAgents(ids[10..16], [Junior, Junior, Junior, Junior, Junior, Junior]);
      var teamA := Team("Team A", agentsA, Shift(OfficeTime, FromHours(8), FromHours(16)));
      var teamB := Team("Team B", agentsB, Shift(NightShift, FromHours(17), FromHours(0)));
      var teamC := Team("Team C", agentsC, Shift(MidNightShift, FromHours(0), FromHours(8)));
      var teamOverflow := Team(OverflowTeamName, agentsOverflow, Shift(OfficeTime, FromHours(8), FromHours(17)));
      teams := [teamA, teamB, teamC, teamOverflow];
      allAgents := agentsA + agentsB + agentsC + agentsOverflow;
      new;
      assert AgentsOf(teams) == allAgents by {
        var ts := teams;
        assert ts[1..][1..][1..][1..] == [];
        assert ts[1..][1..][1..] == [teamOverflow];
        assert ts[1..][1..] == [teamC, teamOverflow];
        assert ts[1..] == [teamB, teamC, teamOverflow];
        assert AgentsOf(ts[1..][1..][1..]) == agentsOverflow + [];
        assert AgentsOf(ts[1..][1..]) == agentsC + agentsOverflow;
        assert AgentsOf(ts[1..]) == agentsB + (agentsC + agentsOverflow);
        assert AgentsOf(ts) == agentsA + (agentsB + (agentsC + agentsOverflow));
      }
      SliceIdsDistinct(ids, 0, 4);
      SliceIdsDistinct(ids, 4, 8);
      SliceIdsDistinct(ids, 8, 10);
      SliceIdsDistinct(ids, 10, 16);
    }

    /** `GetOverFlowTeam`: the first team named "Team Overflow". */
    function GetOverFlowTeam(): (r: Option<Team>)
      ensures r.Some? ==> r.value in teams && r.value.teamName == OverflowTeamName
      ensures r.None? <==> forall team :: team in teams ==> team.teamName != OverflowTeamName
    {
      FindTeam(teams, OverflowTeamName)
    }

    /** `GetActiveTeamInCurrentTime`, with the clock passed in. */
    method GetActiveTeamInCurrentTime(now: DateTime) returns (team: Option<Team>)
      ensures team == ActiveTeam(teams, TimeOfDay(now))
    {
      var timeNow := TimeOfDay(now);
      var ordered := StableSort(teams, StartDescending);
      var i := 0;
      while i < |ordered|
        invariant 0 <= i <= |ordered|
        invariant FirstWorking(ordered[i..], timeNow) == FirstWorking(ordered, timeNow)
      {
        FirstWorkingStep(ordered, i, timeNow);
        var start := ordered[i].shift.start;
        var end := ordered[i].shift.end;
        var currentWorkingTeam := if start < end
                                  then timeNow >= start && timeNow <= end
                                  else timeNow >= start || timeNow <= end;
        if currentWorkingTeam {
          return Some(ordered[i]);
        }
        i := i + 1;
      }
      return None;
    }

    method GetMaxQueueSize(now: DateTime) returns (size: int)
      ensures size == Capacity(ActiveTeam(teams, TimeOfDay(now)))
    {
      var currentTeam := GetActiveTeamInCurrentTime(now);
      size := QueueSize(currentTeam);
    }

    method GetOverFlowQueueSize() returns (size: int)
      ensures size == Capacity(GetOverFlowTeam())
    {
      var currentTeam := GetOverFlowTeam();
      size := QueueSize(currentTeam);
    }

    /** The agent `DecrementAgentChatCount` lowers: the first with that id in the team on duty. */
    function DecrementTarget(agentId: Option<Guid>, timeOfDay: int): (r: Option<Agent>)
      requires Valid()
      ensures r.Some? ==> agentId == Some(r.value.id) && ActiveTeam(teams, timeOfDay).Some? &&
                          r.value in ActiveTeam(teams, timeOfDay).value.agents
      ensures r.Some? ==> r.value in allAgents
      ensures r.None? <==> ActiveTeam(teams, timeOfDay).None? ||
                           FindAgent(ActiveTeam(teams, timeOfDay).value.agents, agentId).None?
    {
      match ActiveTeam(teams, timeOfDay)
      case None => None
      case Some(team) =>
        FindAgent(team.agents, agentId)
    }

    /** Releases one slot of an agent of the team on duty; a no-op when no such agent is found. */
    method DecrementAgentChatCount(agentId: Option<Guid>, now: DateTime)
      requires Valid()
      modifies allAgents
      ensures forall a :: a in allAgents ==>
                a.currentChatCount ==
                  old(a.currentChatCount) - (if DecrementTarget(agentId, TimeOfDay(now)) == Some(a) then 1 else 0)
    {
      var currentTeam := GetActiveTeamInCurrentTime(now);
      var teamAgent := if currentTeam.Some? then FindAgent(currentTeam.value.agents, agentId) else None;
      assert teamAgent == DecrementTarget(agentId, TimeOfDay(now));
      if teamAgent.Some? {
        teamAgent.value.currentChatCount := teamAgent.value.currentChatCount - 1;
      }
    }
  }

  /** In a team without repeated ids, looking an agent's own id up finds that agent. */
  lemma {:induction false} FindAgentFindsMember(agents: seq<Agent>, a: Agent)
    requires DistinctIds(agents) && a in agents
    ensures FindAgent(agents, Some(a.id)) == Some(a)
    decreases |agents|
  {
    if agents[0] != a {
      var k :| 0 <= k < |agents| && agents[k] == a;
      assert agents[0].id != a.id;
      assert agents[1..][k - 1] == a;
      assert DistinctIds(agents[1..]) by {
        forall i, j | 0 <= i < j < |agents| - 1
          ensures agents[1..][i].id != agents[1..][j].id
        {
          assert agents[1..][i] == agents[i + 1] && agents[1..][j] == agents[j + 1];
        }
      }
      FindAgentFindsMember(agents[1..], a);
    }
  }

  /** The "if" side of a release: an agent of the team on duty is the target of its own id. */
  lemma DecrementTargetOnDuty(tc: TeamsCreator, timeOfDay: int, a: Agent)
    requires tc.Valid() && ActiveTeam(tc.teams, timeOfDay).Some?
    requires a in ActiveTeam(tc.teams, timeOfDay).value.agents
    ensures tc.DecrementTarget(Some(a.id), timeOfDay) == Some(a)
  {
    FindAgentFindsMember(ActiveTeam(tc.teams, timeOfDay).value.agents, a);
  }

  // ---------------------------------------------------------------- the configured teams

  /** Which team the resolver returns for each time of day with the configured teams. */
  lemma ConfiguredSchedule(tc: TeamsCreator, timeOfDay: int)
    requires tc.Configured() && 0 <= timeOfDay < TicksPerDay
    ensures FromHours(8) <= timeOfDay <= FromHours(16) ==> ActiveTeam(tc.teams, timeOfDay) == Some(tc.teams[0])
    ensures FromHours(16) < timeOfDay < FromHours(17) ==> ActiveTeam(tc.teams, timeOfDay) == Some(tc.teams[3])
    ensures (FromHours(17) <= timeOfDay || timeOfDay == 0) ==> ActiveTeam(tc.teams, timeOfDay) == Some(tc.teams[1])
    ensures 0 < timeOfDay < FromHours(8) ==> ActiveTeam(tc.teams, timeOfDay) == Some(tc.teams[2])
    ensures ActiveTeam(tc.teams, timeOfDay).Some?
  {
    ConfiguredResolver(tc, timeOfDay);
  }

  /** With four teams, the resolver is the preference chain over them, last to first. */
  lemma ConfiguredResolver(tc: TeamsCreator, timeOfDay: int)
    requires |tc.teams| == 4
    ensures ActiveTeam(tc.teams, timeOfDay) ==
            Prefer(tc.teams[0], Prefer(tc.teams[1], Prefer(tc.teams[2], Prefer(tc.teams[3], None, timeOfDay),
                                                     timeOfDay), timeOfDay), timeOfDay)
  {
    var ts := tc.teams;
    ActiveTeamIsBestWorking(ts, timeOfDay);
    var t3, t2, t1 := ts[1..][1..][1..], ts[1..][1..], ts[1..];
    assert t3[1..] == [] && t3[0] == ts[3] && t2[0] == ts[2] && t1[0] == ts[1];
    assert BestWorking(t3, timeOfDay) == Prefer(ts[3], None, timeOfDay);
    assert BestWorking(t2, timeOfDay) == Prefer(ts[2], BestWorking(t3, timeOfDay), timeOfDay);
    assert BestWorking(t1, timeOfDay) == Prefer(ts[1], BestWorking(t2, timeOfDay), timeOfDay);
  }

  /** The configured level lists, in tenths: 21, 22, 12 and 24. */
  lemma ConfiguredSums()
    ensures SumTenths([TeamLead, Mid, Mid, Junior]) == 21
    ensures SumTenths([Senior, Mid, Junior, Junior]) == 22
    ensures SumTenths([Mid, Mid]) == 12
    ensures SumTenths([Junior, Junior, Junior, Junior, Junior, Junior]) == 24
  {
    SumOfFour(TeamLead, Mid, Mid, Junior);
    SumOfFour(Senior, Mid, Junior, Junior);
    SumOfFour(Junior, Junior, Mid, Mid);
    assert [Junior, Junior, Junior, Junior, Junior, Junior] == [Junior, Junior] + [Junior, Junior, Junior, Junior];
    SumTenthsConcat([Junior, Junior], [Junior, Junior, Junior, Junior]);
    SumTenthsConcat([Junior, Junior], [Mid, Mid]);
    SumOfFour(Junior, Junior, Junior, Junior);
  }

  lemma SumOfFour(a: AgentsLevel, b: AgentsLevel, c: AgentsLevel, d: AgentsLevel)
    ensures SumTenths([a, b, c, d]) == EfficiencyTenths(a) + EfficiencyTenths(b) + EfficiencyTenths(c) + EfficiencyTenths(d)
    ensures SumTenths([c, d]) == EfficiencyTenths(c) + EfficiencyTenths(d)
  {
    assert [d][1..] == [] && [c, d][1..] == [d] && [b, c, d][1..] == [c, d] && [a, b, c, d][1..] == [b, c, d];
    assert SumTenths([d]) == EfficiencyTenths(d);
    assert SumTenths([c, d]) == EfficiencyTenths(c) + SumTenths([d]);
    assert SumTenths([b, c, d]) == EfficiencyTenths(b) + SumTenths([c, d]);
    assert SumTenths([a, b, c, d]) == EfficiencyTenths(a) + SumTenths([b, c, d]);
  }

  /** The configured capacities: A = 31, B = 33, C = 18, Overflow = 36. */
  lemma ConfiguredCapacities(tc: TeamsCreator)
    requires tc.Configured()
    ensures Capacity(Some(tc.teams[0])) == 31
    ensures Capacity(Some(tc.teams[1])) == 33
    ensures Capacity(Some(tc.teams[2])) == 18
    ensures tc.GetOverFlowTeam() == Some(tc.teams[3])
    ensures Capacity(tc.GetOverFlowTeam()) == 36
  {
    ConfiguredSums();
    var ts := tc.teams;
    assert ts[1..][1..][1..][0] == ts[3];
  }

  /** With the configured teams no primary ceiling exceeds 36, so no admission ceiling exceeds 72. */
  lemma ConfiguredCeilingBound(tc: TeamsCreator, timeOfDay: int)
    requires tc.Configured() && 0 <= timeOfDay < TicksPerDay
    ensures Capacity(ActiveTeam(tc.teams, timeOfDay)) <= 36
    ensures Capacity(ActiveTeam(tc.teams, timeOfDay)) + Capacity(tc.GetOverFlowTeam()) <= 72
  {
    ConfiguredSchedule(tc, timeOfDay);
    ConfiguredCapacities(tc);
  }
}
