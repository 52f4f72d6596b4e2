/**
 * One pass of the allocation loop
 * (MoneyBase.Infrastructure/BackgroundServices/ChatAgentAllocateService.cs):
 * the team on duty, or the overflow team, takes queued sessions agent by
 * agent in level order.
 */
module Allocation {
  import opened Wrappers
  import opened Domain
  import opened Sorting
  import opened Utils
  import opened Services

  /** The key of `OrderBy(x => x.AgentLevel)`. */
  function LevelKey(a: Agent): int
  {
    a.agentLevel
  }

  /** `Agents.Any(x => x.IsAvailableForChat)`, negated. */
  predicate NoneAvailable(agents: seq<Agent>)
    reads set a | a in agents
  {
    forall i :: 0 <= i < |agents| ==> !agents[i].IsAvailableForChat()
  }

  /** The overflow switch: office hours, nobody free, and the queue at the team's capacity. */
  predicate SwitchesToOverflow(team: Team, queueCount: int)
    reads set a | a in team.agents
  {
    team.shift.shiftType == OfficeTime && NoneAvailable(team.agents) && queueCount >= Capacity(Some(team))
  }

  /** The team one pass serves, given the queue length and the instant. */
  function ChosenTeam(tc: TeamsCreator, queueCount: int, now: DateTime): (r: Option<Team>)
    requires tc.Valid()
    reads tc.allAgents
    ensures r.Some? ==> r.value in tc.teams
    ensures ActiveTeam(tc.teams, TimeOfDay(now)).None? ==> r.None?
    ensures ActiveTeam(tc.teams, TimeOfDay(now)).Some? ==>
              if SwitchesToOverflow(ActiveTeam(tc.teams, TimeOfDay(now)).value, queueCount)
              then r == tc.GetOverFlowTeam() else r == ActiveTeam(tc.teams, TimeOfDay(now))
  {
    var active := ActiveTeam(tc.teams, TimeOfDay(now));
    if active.None? then None
    else
      assert forall a :: a in active.value.agents ==> a in tc.allAgents;
      if SwitchesToOverflow(active.value, queueCount) then tc.GetOverFlowTeam() else active
  }

  /** The agents, in order, that are available for a chat. */
  function Available(agents: seq<Agent>): (r: seq<Agent>)
    reads set a | a in agents
    ensures forall i :: 0 <= i < |r| ==> r[i] in agents && r[i].IsAvailableForChat()
    ensures forall i :: 0 <= i < |agents| && agents[i].IsAvailableForChat() ==> agents[i] in r
    ensures Distinct(agents) ==> Distinct(r)
    decreases |agents|
  {
    if agents == [] then []
    else
      var n := |agents| - 1;
      var front := Available(agents[..n]);
      assert forall i :: 0 <= i < n ==> agents[..n][i] == agents[i];
      assert Distinct(agents) ==> Distinct(agents[..n]) && agents[n] !in agents[..n];
      assert Distinct(agents) && agents[n].IsAvailableForChat() ==> Distinct(front + [agents[n]]);
      front + (if agents[n].IsAvailableForChat() then [agents[n]] else [])
  }

  /** One bind: the agent, and the roster entry `UpdateCurrentChatAgent` finds for the session's id. */
  datatype Binding = Binding(agent: Agent, session: Option<ChatSession>)

  /**
   * The k-th available agent takes the k-th queued session; it binds when a
   * session with that id is among the active ones, and is dropped otherwise.
   */
  function Bindings(takers: seq<Agent>, queue: seq<ChatSession>, active: seq<ChatSession>,
                    roster: seq<ChatSession>): (r: seq<Binding>)
    ensures |r| <= |takers|
    ensures forall i :: 0 <= i < |r| ==> r[i].agent in takers
    decreases |takers|
  {
    if takers == [] then []
    else
      var k := |takers| - 1;
      var front := Bindings(takers[..k], queue, active, roster);
      assert forall i :: 0 <= i < |front| ==> front[i].agent in takers;
      front +
        (if k < |queue| && FindById(active, queue[k].id).Some?
         then [Binding(takers[k], FindById(roster, queue[k].id))] else [])
  }

  /** How many chats the pass gives `a`. */
  function Count(bindings: seq<Binding>, a: Agent): nat
  {
    if bindings == [] then 0
    else Count(bindings[..|bindings| - 1], a) + (if bindings[|bindings| - 1].agent == a then 1 else 0)
  }

  lemma {:induction false} CountAbsent(bindings: seq<Binding>, a: Agent)
    requires forall i :: 0 <= i < |bindings| ==> bindings[i].agent != a
    ensures Count(bindings, a) == 0
    decreases |bindings|
  {
    if bindings != [] {
      CountAbsent(bindings[..|bindings| - 1], a);
    }
  }

  /** The agent a session ends up bound to: the last bind that found it, or `default`. */
  function LastAgent(bindings: seq<Binding>, c: ChatSession, default: Agent?): Agent?
  {
    if bindings == [] then default
    else if bindings[|bindings| - 1].session == Some(c) then bindings[|bindings| - 1].agent
    else LastAgent(bindings[..|bindings| - 1], c, default)
  }

  /** The effect of one pass, computed on the state it starts from. */
  datatype Plan = Plan(team: Option<Team>, takers: seq<Agent>, taken: nat, bindings: seq<Binding>)

  function Min(a: nat, b: nat): nat
  {
    if a <= b then a else b
  }

  function TickPlan(tc: TeamsCreator, svc: ChatQueueService, now: DateTime): (p: Plan)
    requires tc.Valid()
    reads tc.allAgents, svc, svc.activeChats
    ensures p.team == ChosenTeam(tc, |svc.chatQueue|, now)
    ensures p.team.None? ==> p.takers == [] && p.taken == 0 && p.bindings == []
    ensures p.taken == Min(|p.takers|, |svc.chatQueue|)
    ensures forall i :: 0 <= i < |p.takers| ==>
              p.takers[i] in p.team.value.agents && p.takers[i].IsAvailableForChat()
    ensures Distinct(p.takers)
  {
    var team := ChosenTeam(tc, |svc.chatQueue|, now);
    if team.None? then Plan(None, [], 0, [])
    else
      var order := StableSort(team.value.agents, LevelKey);
      VisitOrderFacts(tc, team.value);
      assert forall a :: a in order ==> a in tc.allAgents;
      var takers := Available(order);
      assert forall i :: 0 <= i < |takers| ==> takers[i] in order;
      Plan(team, takers, Min(|takers|, |svc.chatQueue|),
           Bindings(takers, svc.chatQueue, ActiveOf(svc.activeChats), svc.activeChats))
  }

  lemma SameAgents(a: seq<Agent>, b: seq<Agent>)
    requires multiset(a) == multiset(b)
    ensures forall x :: x in a ==> x in b
  {
    forall x | x in a
      ensures x in b
    {
      assert x in multiset(a);
    }
  }

  /** The visit order lists the team's agents, each once. */
  lemma VisitOrderFacts(tc: TeamsCreator, team: Team)
    requires tc.Valid() && team in tc.teams
    ensures Distinct(StableSort(team.agents, LevelKey))
    ensures forall a :: a in StableSort(team.agents, LevelKey) ==> a in team.agents && a in tc.allAgents
  {
    var order := StableSort(team.agents, LevelKey);
    assert DistinctIds(team.agents);
    assert Distinct(team.agents);
    StableSortDistinct(team.agents, LevelKey);
    SameAgents(order, team.agents);
  }

  /** What one available agent's turn does, given the queue it finds. */
  function StepBinding(agent: Agent, queue: seq<ChatSession>, active: seq<ChatSession>,
                       roster: seq<ChatSession>): (r: seq<Binding>)
    ensures |r| <= 1
  {
    if queue != [] && FindById(active, queue[0].id).Some?
    then [Binding(agent, FindById(roster, queue[0].id))] else []
  }

  lemma BindingsSnoc(takers: seq<Agent>, agent: Agent, queue: seq<ChatSession>, active: seq<ChatSession>,
                     roster: seq<ChatSession>)
    ensures Bindings(takers + [agent], queue, active, roster) ==
            Bindings(takers, queue, active, roster) +
            StepBinding(agent, queue[Min(|takers|, |queue|)..], active, roster)
  {
    assert (takers + [agent])[..|takers|] == takers;
  }

  lemma CountSnoc(bindings: seq<Binding>, step: seq<Binding>, a: Agent)
    requires |step| <= 1
    ensures Count(bindings + step, a) == Count(bindings, a) + Count(step, a)
  {
    if step != [] {
      assert (bindings + step)[..|bindings|] == bindings;
    } else {
      assert bindings + step == bindings;
    }
  }

  lemma LastAgentSnoc(bindings: seq<Binding>, step: seq<Binding>, c: ChatSession, default: Agent?)
    requires |step| <= 1
    ensures LastAgent(bindings + step, c, default) == LastAgent(step, c, LastAgent(bindings, c, default))
  {
    if step != [] {
      assert (bindings + step)[..|bindings|] == bindings;
    } else {
      assert bindings + step == bindings;
    }
  }

  /** What binding one dequeued session does: a bind to its roster entry when it is still active. */
  function BindStep(agent: Agent, chat: Option<ChatSession>, active: seq<ChatSession>,
                    roster: seq<ChatSession>): (r: seq<Binding>)
    ensures |r| <= 1
  {
    if chat.Some? && FindById(active, chat.value.id).Some?
    then [Binding(agent, FindById(roster, chat.value.id))] else []
  }

  /** The bind step of the allocator's agent loop: the dequeued session is bound to the agent if it is still active, and dropped otherwise. */
  method Bind(svc: ChatQueueService, chat: Option<ChatSession>, agent: Agent)
    modifies svc.activeChats, agent
    ensures var step := old(BindStep(agent, chat, ActiveOf(svc.activeChats), svc.activeChats));
            agent.currentChatCount == old(agent.currentChatCount) + |step| &&
            (forall c :: c in svc.activeChats ==>
               c.State() == old(c.State()) && c.assignedAgent == LastAgent(step, c, old(c.assignedAgent)))
  {
    var updateCurrentChatStatus := if chat.Some? then FindById(svc.GetActiveChats(), chat.value.id) else None;
    if updateCurrentChatStatus.None? {
      return;
    }
    var _ := svc.UpdateCurrentChatAgent(updateCurrentChatStatus.value.id, agent);
    agent.currentChatCount := agent.currentChatCount + 1;
  }

  /** One agent's turn: an available agent dequeues one session and binds to it if it is still active. */
  method Visit(svc: ChatQueueService, agent: Agent)
    requires svc.Valid()
    modifies svc, svc.activeChats, agent
    ensures svc.Valid()
    ensures svc.activeChats == old(svc.activeChats) && svc.maxQueueSize == old(svc.maxQueueSize)
    ensures var step := if old(agent.IsAvailableForChat())
                        then old(StepBinding(agent, svc.chatQueue, ActiveOf(svc.activeChats), svc.activeChats))
                        else [];
            svc.chatQueue == (if old(agent.IsAvailableForChat()) && old(svc.chatQueue) != []
                              then old(svc.chatQueue)[1..] else old(svc.chatQueue)) &&
            agent.currentChatCount == old(agent.currentChatCount) + |step| &&
            (forall c :: c in svc.activeChats ==>
               c.State() == old(c.State()) && c.assignedAgent == LastAgent(step, c, old(c.assignedAgent)))
  {
    if agent.IsAvailableForChat() {
      var chat := svc.RemoveFromQueue();
      Bind(svc, chat, agent);
    }
  }

  /** The agents of `order` whose recorded count leaves room for a chat, in order. */
  function TakersBy(order: seq<Agent>, counts: map<Agent, int>): (r: seq<Agent>)
    requires forall i :: 0 <= i < |order| ==> order[i] in counts
    decreases |order|
  {
    if order == [] then []
    else
      var n := |order| - 1;
      assert forall i :: 0 <= i < n ==> order[..n][i] == order[i];
      TakersBy(order[..n], counts) + (if counts[order[n]] < order[n].MaxChatCount() then [order[n]] else [])
  }

  lemma TakersBySnoc(order: seq<Agent>, i: nat, counts: map<Agent, int>)
    requires i < |order|
    requires forall j :: 0 <= j < |order| ==> order[j] in counts
    ensures TakersBy(order[..i + 1], counts) ==
            TakersBy(order[..i], counts) + (if counts[order[i]] < order[i].MaxChatCount() then [order[i]] else [])
  {
    assert order[..i + 1][..i] == order[..i];
  }

  /** On the counts it was taken from, the snapshot selects exactly the available agents. */
  lemma {:induction false} TakersByAvailable(order: seq<Agent>, counts: map<Agent, int>)
    requires forall i :: 0 <= i < |order| ==> order[i] in counts && counts[order[i]] == order[i].currentChatCount
    ensures TakersBy(order, counts) == Available(order)
    decreases |order|
  {
    if order != [] {
      var n := |order| - 1;
      assert forall i :: 0 <= i < n ==> order[..n][i] == order[i];
      TakersByAvailable(order[..n], counts);
    }
  }

  /**
   * The state after the first `i` turns of the agent loop, against snapshots
   * of the state it started from: the takers so far, the queue without its
   * first `taken` sessions, each agent one chat richer per bind, each session
   * carrying its last bind, and no bind yet for the agents still to come.
   */
  ghost predicate ServeInv(tc: TeamsCreator, svc: ChatQueueService, order: seq<Agent>, i: nat,
                           q0: seq<ChatSession>, roster: seq<ChatSession>, active: seq<ChatSession>,
                           takers: seq<Agent>, bindings: seq<Binding>, taken: nat,
                           counts0: map<Agent, int>, states0: map<ChatSession, PollState>,
                           bound0: map<ChatSession, Agent?>, maxq: int)
    reads svc, roster, tc.allAgents
  {
    i <= |order| &&
    svc.activeChats == roster && svc.maxQueueSize == maxq && svc.Valid() &&
    ActiveOf(roster) == active &&
    (forall a :: a in tc.allAgents ==>
       a in counts0 && a.currentChatCount == counts0[a] + Count(bindings, a)) &&
    (forall j :: 0 <= j < |order| ==> order[j] in tc.allAgents) &&
    takers == TakersBy(order[..i], counts0) &&
    taken == Min(|takers|, |q0|) && svc.chatQueue == q0[taken..] &&
    bindings == Bindings(takers, q0, active, roster) &&
    (forall c :: c in roster ==>
       c in states0 && c in bound0 && c.State() == states0[c] &&
       c.assignedAgent == LastAgent(bindings, c, bound0[c])) &&
    (forall j :: i <= j < |order| ==> Count(bindings, order[j]) == 0)
  }

  /** Snapshots the state the agent loop starts from; no turn has been taken. */
  lemma ServeStart(tc: TeamsCreator, svc: ChatQueueService, order: seq<Agent>)
    returns (counts0: map<Agent, int>, states0: map<ChatSession, PollState>, bound0: map<ChatSession, Agent?>)
    requires svc.Valid()
    requires forall i :: 0 <= i < |order| ==> order[i] in tc.allAgents
    ensures ServeInv(tc, svc, order, 0, svc.chatQueue, svc.activeChats, ActiveOf(svc.activeChats), [], [], 0,
                     counts0, states0, bound0, svc.maxQueueSize)
    ensures forall a :: a in tc.allAgents ==> a in counts0 && counts0[a] == a.currentChatCount
    ensures forall c :: c in svc.activeChats ==>
              c in states0 && c in bound0 && states0[c] == c.State() && bound0[c] == c.assignedAgent
    ensures TakersBy(order, counts0) == Available(order)
  {
    counts0 := map a | a in tc.allAgents :: a.currentChatCount;
    states0 := map c | c in svc.activeChats :: c.State();
    bound0 := map c | c in svc.activeChats :: c.assignedAgent;
    assert order[..0] == [];
    TakersByAvailable(order, counts0);
  }

  /** One turn of the agent loop, and the bookkeeping that records it. */
  method Turn(tc: TeamsCreator, svc: ChatQueueService, order: seq<Agent>, i: nat,
              ghost q0: seq<ChatSession>, ghost roster: seq<ChatSession>, ghost active: seq<ChatSession>,
              ghost takers: seq<Agent>, ghost bindings: seq<Binding>, ghost taken: nat,
              ghost counts0: map<Agent, int>, ghost states0: map<ChatSession, PollState>,
              ghost bound0: map<ChatSession, Agent?>, ghost maxq: int)
    returns (ghost takers': seq<Agent>, ghost bindings': seq<Binding>, ghost taken': nat)
    requires i < |order| && Distinct(order)
    requires ServeInv(tc, svc, order, i, q0, roster, active, takers, bindings, taken, counts0, states0, bound0, maxq)
    modifies svc, svc.activeChats, order[i]
    ensures ServeInv(tc, svc, order, i + 1, q0, roster, active, takers', bindings', taken', counts0, states0, bound0, maxq)
  {
    var agent := order[i];
    assert agent in tc.allAgents;
    ghost var avail := agent.IsAvailableForChat();
    assert avail == (counts0[agent] < agent.MaxChatCount());
    ghost var step := if avail then StepBinding(agent, svc.chatQueue, active, roster) else [];
    PlanStep(order, i, counts0, q0, active, roster, takers, taken, step);
    Visit(svc, agent);
    forall k | 0 <= k < |roster|
      ensures roster[k].isActive == old(roster[k].isActive)
    {
      assert roster[k] in roster;
    }
    ActiveOfStable(roster);
    forall a | a in tc.allAgents
      ensures Count(bindings + step, a) == Count(bindings, a) + (if a == agent then |step| else 0)
    {
      CountSnoc(bindings, step, a);
      StepCount(step, agent, a);
    }
    forall j | i < j < |order|
      ensures Count(bindings + step, order[j]) == 0
    {
      CountSnoc(bindings, step, order[j]);
      StepCount(step, agent, order[j]);
    }
    forall c | c in roster
      ensures LastAgent(bindings + step, c, bound0[c]) == LastAgent(step, c, LastAgent(bindings, c, bound0[c]))
    {
      LastAgentSnoc(bindings, step, c, bound0[c]);
    }
    takers' := TakersBy(order[..i + 1], counts0);
    taken' := Min(|takers'|, |q0|);
    bindings' := bindings + step;
  }

  /** A turn's binds all go to the agent whose turn it is. */
  lemma StepCount(step: seq<Binding>, agent: Agent, a: Agent)
    requires step == [] || (|step| == 1 && step[0].agent == agent)
    ensures Count(step, a) == if a == agent then |step| else 0
  {
    if step != [] {
      assert step[..0] == [];
    }
  }

  /** The bookkeeping of one turn on the snapshots: one more taker if the agent had room, one more bind if its session was active. */
  lemma PlanStep(order: seq<Agent>, i: nat, counts0: map<Agent, int>, q0: seq<ChatSession>,
                 active: seq<ChatSession>, roster: seq<ChatSession>, takers: seq<Agent>, taken: nat,
                 step: seq<Binding>)
    requires i < |order| && forall j :: 0 <= j < |order| ==> order[j] in counts0
    requires takers == TakersBy(order[..i], counts0) && taken == Min(|takers|, |q0|)
    requires step == if counts0[order[i]] < order[i].MaxChatCount()
                     then StepBinding(order[i], q0[taken..], active, roster) else []
    ensures step == [] || (|step| == 1 && step[0].agent == order[i])
    ensures Bindings(TakersBy(order[..i + 1], counts0), q0, active, roster) ==
            Bindings(takers, q0, active, roster) + step
    ensures q0[Min(|TakersBy(order[..i + 1], counts0)|, |q0|)..] ==
            if counts0[order[i]] < order[i].MaxChatCount() && q0[taken..] != [] then q0[taken..][1..] else q0[taken..]
  {
    TakersBySnoc(order, i, counts0);
    var bs := Bindings(takers, q0, active, roster);
    if counts0[order[i]] < order[i].MaxChatCount() {
      BindingsSnoc(takers, order[i], q0, active, roster);
      assert TakersBy(order[..i + 1], counts0) == takers + [order[i]];
    } else {
      assert TakersBy(order[..i + 1], counts0) == takers;
      assert bs + step == bs;
    }
  }

  /** The `foreach` over the agents in `ChatAgentAllocateService.ExecuteAsync`: the agents of `order` take their turns, one after another. */
  method Serve(tc: TeamsCreator, svc: ChatQueueService, order: seq<Agent>)
    requires svc.Valid() && Distinct(order)
    requires forall i :: 0 <= i < |order| ==> order[i] in tc.allAgents
    modifies svc, svc.activeChats, tc.allAgents
    ensures svc.Valid()
    ensures svc.activeChats == old(svc.activeChats) && svc.maxQueueSize == old(svc.maxQueueSize)
    ensures var takers := old(Available(order));
            var bindings := old(Bindings(takers, svc.chatQueue, ActiveOf(svc.activeChats), svc.activeChats));
            svc.chatQueue == old(svc.chatQueue)[Min(|takers|, old(|svc.chatQueue|))..] &&
            (forall a :: a in tc.allAgents ==> a.currentChatCount == old(a.currentChatCount) + Count(bindings, a)) &&
            (forall c :: c in svc.activeChats ==>
               c.State() == old(c.State()) && c.assignedAgent == LastAgent(bindings, c, old(c.assignedAgent)))
  {
    ghost var q0 := svc.chatQueue;
    ghost var roster := svc.activeChats;
    ghost var active := ActiveOf(roster);
    ghost var maxq := svc.maxQueueSize;
    ghost var counts0, states0, bound0 := ServeStart(tc, svc, order);
    ghost var takers: seq<Agent> := [];
    ghost var bindings: seq<Binding> := [];
    ghost var taken: nat := 0;
    for i := 0 to |order|
      invariant ServeInv(tc, svc, order, i, q0, roster, active, takers, bindings, taken, counts0, states0, bound0, maxq)
    {
      takers, bindings, taken := Turn(tc, svc, order, i, q0, roster, active, takers, bindings, taken,
                                      counts0, states0, bound0, maxq);
    }
    assert order[..|order|] == order;
  }

  /** The team resolution of one pass of `ChatAgentAllocateService.ExecuteAsync`, overflow switch included. */
  method ChooseTeam(tc: TeamsCreator, svc: ChatQueueService, now: DateTime) returns (team: Option<Team>)
    requires tc.Valid()
    ensures team == ChosenTeam(tc, |svc.chatQueue|, now)
  {
    team := tc.GetActiveTeamInCurrentTime(now);
    if team.None? {
      return;
    }
    var queueSize := tc.GetMaxQueueSize(now);
    var actualQueSize := svc.ChatQueueCurrentSize();
    if team.value.shift.shiftType == OfficeTime && NoneAvailable(team.value.agents) && actualQueSize >= queueSize {
      team := tc.GetOverFlowTeam();
    }
  }

  /** One pass of the allocation loop at instant `now`. */
  method Tick(tc: TeamsCreator, svc: ChatQueueService, now: DateTime)
    requires tc.Valid() && svc.Valid()
    modifies svc, svc.activeChats, tc.allAgents
    ensures svc.Valid()
    ensures svc.activeChats == old(svc.activeChats) && svc.maxQueueSize == old(svc.maxQueueSize)
    ensures var p := old(TickPlan(tc, svc, now));
            svc.chatQueue == old(svc.chatQueue)[p.taken..] &&
            (forall a :: a in tc.allAgents ==> a.currentChatCount == old(a.currentChatCount) + Count(p.bindings, a)) &&
            (forall c :: c in svc.activeChats ==>
               c.State() == old(c.State()) && c.assignedAgent == LastAgent(p.bindings, c, old(c.assignedAgent)))
  {
    var currentTeams := ChooseTeam(tc, svc, now);
    if currentTeams.None? {
      // No team on duty, or the source dereferences a missing overflow team and its handler swallows the exception.
      return;
    }
    var order := StableSort(currentTeams.value.agents, LevelKey);
    VisitOrderFacts(tc, currentTeams.value);
    Serve(tc, svc, order);
  }

  // ---------------------------------------------------------------- what one pass promises

  /**
   * The pairing done by the allocator's agent loop, read front to back: the first taker takes
   * the head of the queue, and so on, each pair binding when its session
   * is still active.
   */
  function Deal(takers: seq<Agent>, queue: seq<ChatSession>, active: seq<ChatSession>,
                roster: seq<ChatSession>): seq<Binding>
    decreases |takers|
  {
    if takers == [] || queue == [] then []
    else
      (if FindById(active, queue[0].id).Some? then [Binding(takers[0], FindById(roster, queue[0].id))] else []) +
      Deal(takers[1..], queue[1..], active, roster)
  }

  lemma {:induction false} DealSnoc(takers: seq<Agent>, t: Agent, queue: seq<ChatSession>,
                                    active: seq<ChatSession>, roster: seq<ChatSession>)
    ensures Deal(takers + [t], queue, active, roster) ==
            Deal(takers, queue, active, roster) +
            (if |takers| < |queue| && FindById(active, queue[|takers|].id).Some?
             then [Binding(t, FindById(roster, queue[|takers|].id))] else [])
    decreases |takers|
  {
    if takers == [] {
      if queue != [] {
        assert Deal([t][1..], queue[1..], active, roster) == [];
      }
    } else if queue != [] {
      assert (takers + [t])[1..] == takers[1..] + [t];
      DealSnoc(takers[1..], t, queue[1..], active, roster);
      if |takers| < |queue| {
        assert queue[1..][|takers| - 1] == queue[|takers|];
      }
    }
  }

  /** FIFO: the k-th available agent is paired with the k-th queued session. */
  lemma {:induction false} BindingsAreDealt(takers: seq<Agent>, queue: seq<ChatSession>,
                                            active: seq<ChatSession>, roster: seq<ChatSession>)
    ensures Bindings(takers, queue, active, roster) == Deal(takers, queue, active, roster)
    decreases |takers|
  {
    if takers != [] {
      var k := |takers| - 1;
      BindingsAreDealt(takers[..k], queue, active, roster);
      assert takers[..k] + [takers[k]] == takers;
      DealSnoc(takers[..k], takers[k], queue, active, roster);
    }
  }

  /** An agent that is not a taker gains nothing. */
  lemma BindingsCountAbsent(takers: seq<Agent>, queue: seq<ChatSession>, active: seq<ChatSession>,
                            roster: seq<ChatSession>, a: Agent)
    requires a !in takers
    ensures Count(Bindings(takers, queue, active, roster), a) == 0
  {
    CountAbsent(Bindings(takers, queue, active, roster), a);
  }

  /** A taker gains a chat exactly when the session at its place in the queue is still active. */
  lemma {:induction false} BindingsCount(takers: seq<Agent>, queue: seq<ChatSession>, active: seq<ChatSession>,
                                         roster: seq<ChatSession>, k: nat)
    requires Distinct(takers) && k < |takers|
    ensures Count(Bindings(takers, queue, active, roster), takers[k]) ==
            (if k < |queue| && FindById(active, queue[k].id).Some? then 1 else 0)
    decreases |takers|
  {
    var n := |takers| - 1;
    var front := takers[..n];
    assert forall i :: 0 <= i < n ==> front[i] == takers[i];
    var fb := Bindings(front, queue, active, roster);
    var step := if n < |queue| && FindById(active, queue[n].id).Some?
                then [Binding(takers[n], FindById(roster, queue[n].id))] else [];
    assert Bindings(takers, queue, active, roster) == fb + step;
    CountSnoc(fb, step, takers[k]);
    if k == n {
      assert takers[n] !in front;
      BindingsCountAbsent(front, queue, active, roster, takers[n]);
    } else {
      assert Distinct(front);
      BindingsCount(front, queue, active, roster, k);
      assert takers[n] != takers[k];
    }
  }

  /** An agent is available in `Available(agents)` order only if it was in `agents`, so sortedness carries over. */
  lemma {:induction false} AvailableKeepsOrder(agents: seq<Agent>)
    requires SortedBy(agents, LevelKey)
    ensures SortedBy(Available(agents), LevelKey)
    decreases |agents|
  {
    if agents != [] {
      var n := |agents| - 1;
      var front := agents[..n];
      assert forall i :: 0 <= i < n ==> front[i] == agents[i];
      assert SortedBy(front, LevelKey);
      AvailableKeepsOrder(front);
      var r := Available(agents);
      var fr := Available(front);
      if agents[n].IsAvailableForChat() {
        forall i | 0 <= i < |fr|
          ensures LevelKey(fr[i]) <= LevelKey(agents[n])
        {
          assert fr[i] in front;
          var j :| 0 <= j < n && front[j] == fr[i];
        }
        forall i, j | 0 <= i < j < |r|
          ensures LevelKey(r[i]) <= LevelKey(r[j])
        {
          if j < |fr| {
            assert r[i] == fr[i] && r[j] == fr[j];
          } else {
            assert r[i] == fr[i] && r[j] == agents[n];
          }
        }
      }
    }
  }

  /**
   * One pass never gives an agent more than one chat, gives chats only to
   * agents of the team it serves that had room for one, and so never lifts
   * a count past the agent's maximum; the takers come in level order.
   */
  lemma TickPlanBounds(tc: TeamsCreator, svc: ChatQueueService, now: DateTime, a: Agent)
    requires tc.Valid()
    ensures var p := TickPlan(tc, svc, now);
            Count(p.bindings, a) <= 1 &&
            (Count(p.bindings, a) == 1 ==>
               p.team.Some? && a in p.team.value.agents && a.currentChatCount + 1 <= a.MaxChatCount())
    ensures SortedBy(TickPlan(tc, svc, now).takers, LevelKey)
  {
    var p := TickPlan(tc, svc, now);
    if p.team.Some? {
      var order := StableSort(p.team.value.agents, LevelKey);
      VisitOrderFacts(tc, p.team.value);
      AvailableKeepsOrder(order);
      if a in p.takers {
        var k :| 0 <= k < |p.takers| && p.takers[k] == a;
        BindingsCount(p.takers, svc.chatQueue, ActiveOf(svc.activeChats), svc.activeChats, k);
      } else {
        BindingsCountAbsent(p.takers, svc.chatQueue, ActiveOf(svc.activeChats), svc.activeChats, a);
      }
    }
  }
}
