# MoneyBase chat engine, modelled in Dafny

MoneyBase is a support-chat back end. This project models its in-memory engine, which has four parts:

- **Admission.** `ChatQueueService` admits new sessions into a FIFO queue and a roster, subject to a capacity ceiling.
- **Shift resolution and capacity.** `TeamsCreator` holds four fixed teams. It says which team is on duty at a given time of day and how many sessions that team can absorb.
- **Allocation.** One pass of the allocator hands queued sessions to the available agents of the team on duty, in level order. When the office team is saturated it uses the overflow team instead.
- **Liveness.** One pass of the poller counts missed polls. At the third miss it deactivates the session and releases the slot of the agent the session was bound to.

The model follows the shape of the code:

- **Entities.** Agents and sessions are classes whose fields change in place. Teams and shifts are values.
- **Services.** The admission service and the team configuration are classes too.
- **Background loops.** The body of each background loop is a method: `Allocation.Tick` and `Polling.Sweep`. Each takes the instant it runs at.
- **Reference definitions.** The resolver, the capacity calculator and both loop bodies are proved against pure functions. The team choice and the lookups are stated directly as functions whose contracts say what they return.
  - The shift resolver sorts and then scans. It is proved equal to `BestWorking`, a direct definition: the latest-starting team on duty, with the earliest listed winning a tie.
  - `QueueSize`'s grouped loop is proved equal to `Capacity`, a plain sum over the agents.
  - The allocator's agent loop is proved equal to `TickPlan`. That function pairs the k-th available agent with the k-th queued session (`Deal`).
  - The liveness pass is proved equal to `PassEffect`, applied to every roster entry, plus `Released`, which gives each agent's release count. `PassEffect` is `PollCheck` on a session active at the start of the pass and the identity on any other. The same `PassEffect` drives the one-session timelines `Sweeps` and `Run`.

Conventions of the model:

- **Time.**
  - An instant is an integer count of 100 ns ticks.
  - The time of day is that count modulo one day.
  - Shift bounds are offsets from midnight in the same unit.
- **Efficiencies** are integer tenths: Junior 4, Mid 6, Senior 8, TeamLead 5, any other level 0.
  - `MaxChatCount` is then the tenths value.
  - A team's capacity is `3 * (sum of tenths) / 2`, rounded down. For the configured teams this reproduces 31, 33, 18 and 36 (see `Utils.QueueSize` under "## Left out" for the compositions where it differs).
- **Levels** are their enumeration ordinals: Junior 0, Mid 1, Senior 2, TeamLead 3. `OrderBy(x => x.AgentLevel)` sorts by that ordinal, and `Sorting.StableSort` models it as a stable sort.
- **Identifiers** (`Guid`) are integers supplied by the caller.

## Model

| member | source | states |
|---|---|---|
| Domain.TimeOfDay | MoneyBase.Infrastructure/Utils/TeamsCreator.cs:87 | the time of day lies in [0, one day) and differs from the instant by whole days |
| Domain.Agent.constructor | MoneyBase.Domain/Entities/Agent.cs:7-19 | an agent keeps the id and level it is created with and starts with no chats |
| Domain.Agent.MaxChatCount | MoneyBase.Domain/Entities/Agent.cs:9-18 | an agent takes at most 8 chats, and takes none exactly when its level is not one of the four known levels |
| Domain.MaxChatCountByLevel | MoneyBase.Domain/Entities/Agent.cs:8-20 | two agents of the same level have the same maximum |
| Domain.UnmappedLevelNeverAvailable | MoneyBase.Domain/Entities/Agent.cs:16-20 | an agent of an unknown level is never available for a chat while its count is not negative |
| Domain.JuniorAvailability | MoneyBase.Domain/Entities/Agent.cs:12-20 | a junior takes 4 chats: it is unavailable at 4 and available at 3 |
| Domain.ChatSession.constructor | MoneyBase.Domain/Entities/ChatSession.cs:5-11 | a new session carries the given id and user, has no missed polls, is active and unassigned, and was created and last polled at the given instant |
| Sorting.StableSort | MoneyBase.Infrastructure/BackgroundServices/ChatAgentAllocateService.cs:44 | the result is a permutation of the input, sorted by the key |
| Sorting.StableSortIsStable | MoneyBase.Infrastructure/BackgroundServices/ChatAgentAllocateService.cs:44 | elements with equal keys keep their relative order |
| Sorting.StableSortDistinct | MoneyBase.Infrastructure/BackgroundServices/ChatAgentAllocateService.cs:44 | sorting distinct elements yields distinct elements |
| Utils.FirstWorking | MoneyBase.Infrastructure/Utils/TeamsCreator.cs:89-103 | the early-return scan returns a listed team on duty, and returns nothing exactly when no listed team is on duty |
| Utils.ActiveTeam | MoneyBase.Infrastructure/Utils/TeamsCreator.cs:85-104 | the resolver returns a configured team whose window contains the time, and returns nothing exactly when no team's window does |
| Utils.BestWorkingSpec | MoneyBase.Infrastructure/Utils/TeamsCreator.cs:89-103 | the reference resolver picks, among the teams on duty, one with the latest start, and the first listed among equal starts |
| Utils.ActiveTeamIsBestWorking | MoneyBase.Infrastructure/Utils/TeamsCreator.cs:89-103 | sorting by descending start and returning the first team on duty equals the reference resolver |
| Utils.IsActiveNowVersusWindow | MoneyBase.Domain/Entities/Shift.cs:10 | `IsActiveNow` agrees with the resolver's window on a non-wrapping shift, is never true on a wrapping one, and on a shift with equal ends holds only at its start, whereas the resolver treats that shift as all-day |
| Utils.GroupedAmountIsTotal | MoneyBase.Infrastructure/Utils/TeamsCreator.cs:133-143 | summing efficiency times count over the level groups gives the plain sum over agents |
| Utils.SumTenthsPermutation | MoneyBase.Infrastructure/Utils/TeamsCreator.cs:131-146 | any reordering of the same levels has the same total efficiency |
| Utils.CapacityIgnoresAgentOrder | MoneyBase.Infrastructure/Utils/TeamsCreator.cs:131-146 | a team's capacity does not depend on the order of its agents |
| Utils.QueueSize | MoneyBase.Infrastructure/Utils/TeamsCreator.cs:131-146 | the grouped accumulation loop returns the reference capacity: 1.5 times ten times the total efficiency, rounded down; 0 for no team |
| Utils.FindAgent | MoneyBase.Infrastructure/Utils/TeamsCreator.cs:125 | the lookup returns a listed agent with that id, and returns nothing exactly when the id is null or matches no agent |
| Utils.FindTeam | MoneyBase.Infrastructure/Utils/TeamsCreator.cs:113 | the lookup returns a listed team with that name, and returns nothing exactly when no team has it |
| Utils.FindAgentFindsMember | MoneyBase.Infrastructure/Utils/TeamsCreator.cs:125 | in a team without repeated ids, looking up an agent's own id finds that very agent |
| Utils.NewAgents | MoneyBase.Infrastructure/Utils/TeamsCreator.cs:22-28 | builds fresh agents with the given ids and levels, in order, each with no chats |
| Utils.TeamsCreator.constructor | MoneyBase.Infrastructure/Utils/TeamsCreator.cs:14-78 | builds Team A, Team B, Team C and Team Overflow with the configured shifts and levels; all agents are fresh, idle and distinct by id within each team |
| Utils.TeamsCreator.GetOverFlowTeam | MoneyBase.Infrastructure/Utils/TeamsCreator.cs:116-120 | returns a team named "Team Overflow", and returns nothing exactly when no team has that name |
| Utils.TeamsCreator.GetActiveTeamInCurrentTime | MoneyBase.Infrastructure/Utils/TeamsCreator.cs:85-104 | the loop with early return computes the resolver at the time of day of `now` |
| Utils.TeamsCreator.GetMaxQueueSize | MoneyBase.Infrastructure/Utils/TeamsCreator.cs:106-110 | the primary ceiling is the capacity of the team on duty at `now` |
| Utils.TeamsCreator.GetOverFlowQueueSize | MoneyBase.Infrastructure/Utils/TeamsCreator.cs:111-115 | the overflow allowance is the capacity of the overflow team |
| Utils.TeamsCreator.DecrementTarget | MoneyBase.Infrastructure/Utils/TeamsCreator.cs:124-125 | the agent released is an agent of the team on duty whose id was given; there is none exactly when no team is on duty or the id matches none of its agents |
| Utils.TeamsCreator.DecrementAgentChatCount | MoneyBase.Infrastructure/Utils/TeamsCreator.cs:122-130 | exactly that agent's count drops by one, with no lower bound; every other agent is unchanged |
| Utils.DecrementTargetOnDuty | MoneyBase.Infrastructure/Utils/TeamsCreator.cs:122-130 | every agent of the team on duty is the agent its own id releases |
| Utils.ConfiguredSchedule | MoneyBase.Infrastructure/Utils/TeamsCreator.cs:19-104 | with the configured teams: Team A during [08:00, 16:00], Team Overflow during (16:00, 17:00), Team B from 17:00 and at exactly 00:00, Team C during (00:00, 08:00); some team is always on duty |
| Utils.ConfiguredResolver | MoneyBase.Infrastructure/Utils/TeamsCreator.cs:89-103 | over four teams, the resolver is the preference chain of the reference definition, unrolled |
| Utils.ConfiguredSums | MoneyBase.Infrastructure/Utils/TeamsCreator.cs:19-77 | the configured level lists total 2.1, 2.2, 1.2 and 2.4 in efficiency |
| Utils.ConfiguredCapacities | MoneyBase.Infrastructure/Utils/TeamsCreator.cs:19-77 | the configured capacities are A = 31, B = 33, C = 18, Overflow = 36, and the overflow lookup finds the fourth team |
| Utils.ConfiguredCeilingBound | MoneyBase.Infrastructure/Services/ChatQueueService.cs:21-22 | with the configured teams, the primary ceiling never exceeds 36 and the overflow ceiling never exceeds 72 |
| Services.FindById | MoneyBase.Infrastructure/Services/ChatQueueService.cs:83 | the lookup returns a listed session with that id, and returns nothing exactly when no session has it |
| Services.FindByIdIsFirst | MoneyBase.Infrastructure/Services/ChatQueueService.cs:93 | the lookup finds the session at the least index carrying the id |
| Services.ActiveOf | MoneyBase.Infrastructure/Services/ChatQueueService.cs:73 | the filter keeps exactly the active sessions and keeps them distinct |
| Services.ActiveOfAppend | MoneyBase.Infrastructure/Services/ChatQueueService.cs:73 | the filter preserves order: filtering a concatenation concatenates the filtered parts |
| Services.ChatQueueService.constructor | MoneyBase.Infrastructure/Services/ChatQueueService.cs:16-23 | the queue and roster start empty; the team on duty and the primary ceiling are captured at `now`; the overflow ceiling is the primary ceiling plus the overflow team's capacity |
| Services.ChatQueueService.AddToQueue | MoneyBase.Infrastructure/Services/ChatQueueService.cs:24-60 | admits exactly when the queue is within the ceiling, or within the overflow ceiling during office time; admission appends one new session to both queue and roster; the ceiling rises to the overflow ceiling only on an admission past it and never falls; a refusal changes nothing |
| Services.ChatQueueService.RemoveFromQueue | MoneyBase.Infrastructure/Services/ChatQueueService.cs:62-69 | returns and removes the head of the queue, or returns nothing on an empty queue; the roster is untouched |
| Services.ChatQueueService.GetChatById | MoneyBase.Infrastructure/Services/ChatQueueService.cs:115-118 | returns a roster entry with that id, active or not, and returns nothing exactly when the roster has none |
| Services.ChatQueueService.UpdateChatSessionPoll | MoneyBase.Infrastructure/Services/ChatQueueService.cs:81-89 | only the first session with that id gets zero misses and a poll time of `now`; its active flag and every other session stay as they were |
| Services.ChatQueueService.UpdateCurrentChatAgent | MoneyBase.Infrastructure/Services/ChatQueueService.cs:91-103 | binds the first session with that id to the agent and reports whether there was one; no poll field and no agent count changes |
| Services.ChatQueueService.RemoveInactivefromChatActiveList | MoneyBase.Infrastructure/Services/ChatQueueService.cs:105-108 | the roster becomes its active entries in order, and the result is the number removed |
| Services.RefusalMeansFull | MoneyBase.Test/Application/ChatHandlerTests.cs:49-67 | a refused add finds the queue longer than the ceiling in force, hence longer than the primary ceiling |
| Services.QueueWithinCeiling | MoneyBase.Infrastructure/Services/ChatQueueService.cs:27-59 | the queue never holds more than one session beyond the overflow ceiling; the ceiling stays between its initial value and the overflow ceiling |
| Allocation.ChosenTeam | MoneyBase.Infrastructure/BackgroundServices/ChatAgentAllocateService.cs:26-42 | no team when none is on duty; the overflow team exactly when the team on duty works office time, has no agent available and the queue has reached its capacity; otherwise the team on duty |
| Allocation.ChooseTeam | MoneyBase.Infrastructure/BackgroundServices/ChatAgentAllocateService.cs:26-42 | the pass's team resolution computes the chosen team |
| Allocation.Available | MoneyBase.Infrastructure/BackgroundServices/ChatAgentAllocateService.cs:44-46 | keeps exactly the available agents, distinct when the agents are |
| Allocation.TickPlan | MoneyBase.Infrastructure/BackgroundServices/ChatAgentAllocateService.cs:26-63 | a pass serves the chosen team; its takers are distinct available agents of that team; it takes as many sessions as there are takers or queued sessions, whichever is fewer; with no team it does nothing |
| Allocation.Bind | MoneyBase.Infrastructure/BackgroundServices/ChatAgentAllocateService.cs:48-55 | a dequeued session is bound, and the agent's count raised by one, exactly when it is still active; a missing or inactive session is dropped |
| Allocation.Visit | MoneyBase.Infrastructure/BackgroundServices/ChatAgentAllocateService.cs:46-61 | an available agent dequeues exactly one session and binds to it when it is active; an unavailable agent changes nothing |
| Allocation.Serve | MoneyBase.Infrastructure/BackgroundServices/ChatAgentAllocateService.cs:44-63 | over the visit order, the queue loses its first sessions, one per available agent; each agent gains its binds; each session ends bound to its last binder; no poll field changes |
| Allocation.Tick | MoneyBase.Infrastructure/BackgroundServices/ChatAgentAllocateService.cs:26-63 | one pass applies the plan computed on the state it starts from: the queue, the agent counts and the session bindings change exactly as the plan says, and the roster and the ceiling stay as they were |
| Allocation.BindingsAreDealt | MoneyBase.Infrastructure/BackgroundServices/ChatAgentAllocateService.cs:44-55 | FIFO: the k-th available agent is paired with the k-th queued session |
| Allocation.BindingsCount | MoneyBase.Infrastructure/BackgroundServices/ChatAgentAllocateService.cs:46-55 | a taker gains one chat exactly when the session at its place in the queue exists and is active, and none otherwise |
| Allocation.BindingsCountAbsent | MoneyBase.Infrastructure/BackgroundServices/ChatAgentAllocateService.cs:44-61 | an agent that is not a taker gains nothing |
| Allocation.AvailableKeepsOrder | MoneyBase.Infrastructure/BackgroundServices/ChatAgentAllocateService.cs:44-46 | the takers of a level-sorted order are themselves level-sorted |
| Allocation.TickPlanBounds | MoneyBase.Infrastructure/BackgroundServices/ChatAgentAllocateService.cs:44-61 | a pass gives an agent at most one chat, only to an agent of the served team that had room, so never past its maximum; the takers come in level order |
| Polling.PollCheckEffect | MoneyBase.Infrastructure/BackgroundServices/PollingService.cs:27-32 | a pass never moves the poll time; it adds a miss exactly when the session is stale, deactivates exactly at the third miss, and leaves a fresh session unchanged |
| Polling.StaleSweeps | MoneyBase.Infrastructure/BackgroundServices/PollingService.cs:25-32 | over stale passes with no poll in between, the poll time never moves; an inactive session is untouched; an active session below three misses ends with its misses plus the number of passes, capped at three, and is still active exactly when that sum is below three |
| Polling.ThirdStalePassEvicts | MoneyBase.Infrastructure/BackgroundServices/PollingService.cs:25-32 | a fresh session survives two stale passes, is deactivated with three misses by the third, and a fourth pass leaves it unchanged |
| Polling.SweepsSnoc | MoneyBase.Infrastructure/BackgroundServices/PollingService.cs:22-25 | a further pass acts on the state the earlier passes left |
| Polling.InactiveStaysInactive | MoneyBase.Infrastructure/BackgroundServices/PollingService.cs:25-32 | no sequence of polls and passes reactivates a session |
| Polling.KeptAliveByPolls | MoneyBase.Infrastructure/BackgroundServices/PollingService.cs:27 | a session polled within ten seconds before every pass stays active with no misses |
| Polling.ReleasedOnlyOnDuty | MoneyBase.Infrastructure/BackgroundServices/PollingService.cs:33-34 | releases reach only agents of the team on duty at the pass, at most one per evicted session, and only agents whose id was handed over; unassigned sessions release nothing |
| Polling.ReleasedOnDutyExact | MoneyBase.Infrastructure/BackgroundServices/PollingService.cs:33-34 | an agent of the team on duty loses exactly one slot per evicted session bound to it |
| Polling.Check | MoneyBase.Infrastructure/BackgroundServices/PollingService.cs:26-42 | the body of the pass's `ForEach` on one session keeps the pass invariant: checked sessions carry their new poll fields, the rest their old ones, no binding moves, and each agent has lost one chat per release so far |
| Polling.Mark | MoneyBase.Infrastructure/BackgroundServices/PollingService.cs:27-32 | one session's poll fields follow the pass rule, and the result reports whether it was deactivated |
| Polling.Sweep | MoneyBase.Infrastructure/BackgroundServices/PollingService.cs:24-43 | every roster entry undergoes `PassEffect`: the sessions active at the start are checked and all others are untouched; no binding moves; the roster stays as it is, evicted sessions included; each agent loses one chat per eviction released to it |

## Left out

- Concurrency is not modelled: the two background loops, the HTTP handlers and the unsynchronised roster list. Each operation is one atomic step over a shared state.
- Loop scaffolding is not modelled: `while`, `Task.Delay`, cancellation and logging. `Allocation.Tick` and `Polling.Sweep` are each one iteration of a loop body.
- The clock is not modelled. `DateTime.Now` is an explicit `now` parameter.
  - One pass reads the clock once. The source reads it afresh inside each call it makes, so the model does not capture a pass that straddles a shift boundary.
  - `Polling.Sweep` passes its own `now` to the decrement.
- `Guid.NewGuid()` is not modelled. The caller supplies the chat id. `Utils.TeamsCreator.constructor` takes the sixteen agent ids as distinct parameters.
- Floating point is not modelled. Efficiencies are integer tenths, and `Convert.ToInt32` and the `(int)` cast become exact integer arithmetic. This gives the same `MaxChatCount` for every level and the same capacities for the four configured teams.
- Utils.QueueSize: its contract is exact integer arithmetic, so it does not model the source's double rounding. `amount` sums `Efficiency * count * 10` in doubles, and a sum that falls just below a whole number is truncated one lower after `* 1.5`. For example, nine Mid agents give 0.6 * 9 * 10 = 53.99999999999999 in doubles, so the source yields 80 where `Capacity` gives 81; nine Mid agents and one Junior give 86 against 87. Such differences arise only for team compositions other than the configured four.
- 32-bit `int` wrap-around of counts and sizes is not modelled. The counts stay far below the limit.
- The `AgentsLevel` and `ShiftTypes` enumeration files are not part of this model. The level ordinals Junior 0, Mid 1, Senior 2 and TeamLead 3 are assumed. `ShiftTypes` is OfficeTime, NightShift and MidNightShift.
- When the overflow team is missing, the allocator's `currentTeams?.Agents...!` throws and its handler swallows the exception. The model treats that pass as doing nothing: `ChosenTeam` is none. The exception itself is not modelled.
- Services.ChatQueueService.GetActiveChats, GetAllChats and ChatQueueCurrentSize are accessors with no contract of their own. They are the `ActiveOf` filter, the roster and the queue length.
- Domain.Shift.IsActiveNow has no contract of its own. `Utils.IsActiveNowVersusWindow` states its meaning against the resolver's window.
- Domain.Agent.IsAvailableForChat has no contract of its own. `Domain.JuniorAvailability` and `Domain.UnmappedLevelNeverAvailable` state its meaning.
- Domain.EfficiencyTenths has no contract of its own. `Domain.Agent.MaxChatCount` states what the table gives.
- Utils.IsWorkingAt has no contract of its own. `Utils.FirstWorking` and `Utils.IsActiveNowVersusWindow` state its meaning.
- Utils.GroupByLevel has no contract of its own. `Utils.GroupedAmountIsTotal` states what the grouping preserves.
- Sessions are not assumed to have distinct ids, because the source does not demand it. Lookups are modelled with the source's first-match semantics, and the contracts quantify over the first match.
- The HTTP controllers, the MediatR handlers and their `Guid.Empty` sentinel are not modelled. They only forward to the service.
