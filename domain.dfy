/**
 * The entities of the chat engine: agents and their capacity, shifts,
 * chat sessions and teams (MoneyBase.Domain/Entities).
 */
module Domain {

  /** An identifier (`Guid`). Fresh identifiers are supplied by the caller. */
  type Guid = int

  /** An absolute instant (`DateTime`), in ticks of 100 ns. */
  type DateTime = int

  const TicksPerSecond: int := 10_000_000
  const TicksPerHour: int := 3600 * TicksPerSecond
  const TicksPerDay: int := 24 * TicksPerHour

  /** `TimeSpan.FromHours(h)`, as an offset from midnight. */
  function FromHours(h: int): int
  {
    h * TicksPerHour
  }

  /** `DateTime.TimeOfDay`: how far past its last midnight an instant lies. */
  function TimeOfDay(now: DateTime): (t: int)
    ensures 0 <= t < TicksPerDay
    ensures (now - t) % TicksPerDay == 0
  {
    now % TicksPerDay
  }

  // ---------------------------------------------------------------- Agent

  /**
   * `AgentsLevel`, by its underlying ordinal; the ordering used by
   * `OrderBy(x => x.AgentLevel)` is the ordering of these integers.
   */
  type AgentsLevel = int

  const Junior: AgentsLevel := 0
  const Mid: AgentsLevel := 1
  const Senior: AgentsLevel := 2
  const TeamLead: AgentsLevel := 3

  predicate IsMappedLevel(level: AgentsLevel)
  {
    level == Junior || level == Mid || level == Senior || level == TeamLead
  }

  /** `Agent.Efficiency`, in tenths: 0.4, 0.6, 0.8, 0.5, and 0.0 for any other level. */
  function EfficiencyTenths(level: AgentsLevel): nat
  {
    if level == Junior then 4
    else if level == Mid then 6
    else if level == Senior then 8
    else if level == TeamLead then 5
    else 0
  }

  class Agent {
    const id: Guid
    const agentLevel: AgentsLevel
    /** The only load field; raised by the allocator, lowered on eviction. */
    var currentChatCount: int

    constructor (id: Guid, agentLevel: AgentsLevel)
      ensures this.id == id && this.agentLevel == agentLevel
      ensures currentChatCount == 0
    {
      this.id := id;
      this.agentLevel := agentLevel;
      currentChatCount := 0;
    }

    /** `Convert.ToInt32(Efficiency * 10)`, which is exact on tenths. */
    function MaxChatCount(): (m: nat)
      ensures m <= 8
      ensures m == 0 <==> !IsMappedLevel(agentLevel)
    {
      EfficiencyTenths(agentLevel)
    }

    predicate IsAvailableForChat()
      reads this
    {
      currentChatCount < MaxChatCount()
    }
  }

  /** The capacity of an agent depends on its level alone. */
  lemma MaxChatCountByLevel(a: Agent, b: Agent)
    requires a.agentLevel == b.agentLevel
    ensures a.MaxChatCount() == b.MaxChatCount()
  {
  }

  /** An agent of an unmapped level is never available while its count is not negative. */
  lemma UnmappedLevelNeverAvailable(a: Agent)
    requires !IsMappedLevel(a.agentLevel) && a.currentChatCount >= 0
    ensures !a.IsAvailableForChat()
  {
  }

  /** A junior agent (capacity 4) is unavailable at 4 chats and available again at 3. */
  lemma JuniorAvailability(a: Agent)
    requires a.agentLevel == Junior
    ensures a.MaxChatCount() == 4
    ensures a.currentChatCount == 4 ==> !a.IsAvailableForChat()
    ensures a.currentChatCount == 3 ==> a.IsAvailableForChat()
  {
  }

  // ---------------------------------------------------------------- Shift

  datatype ShiftTypes = OfficeTime | NightShift | MidNightShift

  datatype Shift = Shift(shiftType: ShiftTypes, start: int, end: int) {
    /** `Shift.IsActiveNow`, at the given time of day: a plain interval test. */
    predicate IsActiveNow(timeOfDay: int)
    {
      start <= timeOfDay <= end
    }
  }

  // ---------------------------------------------------------------- Team

  datatype Team = Team(teamName: string, agents: seq<Agent>, shift: Shift)

  // ---------------------------------------------------------------- ChatSession

  /** The part of a session the liveness protocol reads and writes. */
  datatype PollState = PollState(missedPolls: int, isActive: bool, lastPolledAt: DateTime)

  class ChatSession {
    const id: Guid
    const userId: string
    const createdDate: DateTime
    var missedPolls: int
    var isActive: bool
    var lastPolledAt: DateTime
    /** A non-owning reference: nothing here changes the agent it points to. */
    var assignedAgent: Agent?

    /** A session as `AddToQueue` creates it at instant `now`. */
    constructor (id: Guid, userId: string, now: DateTime)
      ensures this.id == id && this.userId == userId
      ensures createdDate == now && lastPolledAt == now
      ensures missedPolls == 0 && isActive && assignedAgent == null
    {
      this.id := id;
      this.userId := userId;
      createdDate := now;
      missedPolls := 0;
      isActive := true;
      lastPolledAt := now;
      assignedAgent := null;
    }

    function State(): PollState
      reads this
    {
      PollState(missedPolls, isActive, lastPolledAt)
    }
  }
}
