/**
 * The admission-controlled queue and the roster of sessions
 * (MoneyBase.Infrastructure/Services/ChatQueueService.cs).
 */
module Services {
  import opened Wrappers
  import opened Domain
  import opened Sorting
  import opened Utils

  /** `FirstOrDefault(c => c.Id == chatId)` over a list of sessions. */
  function FindById(chats: seq<ChatSession>, chatId: Guid): (r: Option<ChatSession>)
    ensures r.Some? ==> r.value in chats && r.value.id == chatId
    ensures r.None? <==> forall c :: c in chats ==> c.id != chatId
  {
    if chats == [] then None
    else if chats[0].id == chatId then Some(chats[0])
    else FindById(chats[1..], chatId)
  }

  /** The first match: the session at the least index carrying the id is the one found. */
  lemma {:induction false} FindByIdIsFirst(chats: seq<ChatSession>, chatId: Guid, i: nat)
    requires i < |chats| && chats[i].id == chatId
    requires forall j :: 0 <= j < i ==> chats[j].id != chatId
    ensures FindById(chats, chatId) == Some(chats[i])
    decreases i
  {
    if i > 0 {
      assert chats[0].id != chatId;
      assert chats[1..][i - 1] == chats[i];
      forall j | 0 <= j < i - 1
        ensures chats[1..][j].id != chatId
      {
        assert chats[1..][j] == chats[j + 1];
      }
      FindByIdIsFirst(chats[1..], chatId, i - 1);
    }
  }

  /** `Where(c => c.IsActive)`: the active sessions, in roster order. */
  function ActiveOf(chats: seq<ChatSession>): (r: seq<ChatSession>)
    reads chats
    ensures |r| <= |chats|
    ensures forall i :: 0 <= i < |r| ==> r[i] in chats && r[i].isActive
    ensures forall i :: 0 <= i < |chats| && chats[i].isActive ==> chats[i] in r
    ensures Distinct(chats) ==> Distinct(r)
  {
    if chats == [] then []
    else
      var rest := ActiveOf(chats[1..]);
      if chats[0].isActive then
        assert Distinct(chats) ==> chats[0] !in chats[1..] by {
          if Distinct(chats) {
            forall k | 0 <= k < |chats| - 1
              ensures chats[1..][k] != chats[0]
            {
              assert chats[1..][k] == chats[k + 1];
            }
          }
        }
        assert Distinct(chats) ==> Distinct(chats[1..]) by {
          if Distinct(chats) {
            forall i, j | 0 <= i < j < |chats| - 1
              ensures chats[1..][i] != chats[1..][j]
            {
              assert chats[1..][i] == chats[i + 1] && chats[1..][j] == chats[j + 1];
            }
          }
        }
        [chats[0]] + rest
      else
        assert Distinct(chats) ==> Distinct(chats[1..]) by {
          if Distinct(chats) {
            forall i, j | 0 <= i < j < |chats| - 1
              ensures chats[1..][i] != chats[1..][j]
            {
              assert chats[1..][i] == chats[i + 1] && chats[1..][j] == chats[j + 1];
            }
          }
        }
        rest
  }

  /** The filter preserves order: filtering a concatenation concatenates the filtered parts. */
  lemma {:induction false} ActiveOfAppend(a: seq<ChatSession>, b: seq<ChatSession>)
    ensures ActiveOf(a + b) == ActiveOf(a) + ActiveOf(b)
    decreases |a|
  {
    if a == [] {
      assert a + b == b;
    } else {
      assert (a + b)[1..] == a[1..] + b;
      ActiveOfAppend(a[1..], b);
    }
  }

  /** The filter depends on the active flags alone. */
  twostate lemma {:induction false} ActiveOfStable(chats: seq<ChatSession>)
    requires forall i :: 0 <= i < |chats| ==> chats[i].isActive == old(chats[i].isActive)
    ensures ActiveOf(chats) == old(ActiveOf(chats))
    decreases |chats|
  {
    if chats != [] {
      ActiveOfStable(chats[1..]);
    }
  }

  /** The office-hours test of `AddToQueue`; a missing team is not office time. */
  predicate IsOfficeTime(team: Option<Team>)
  {
    team.Some? && team.value.shift.shiftType == OfficeTime
  }

  /** The fields of a session just created by `AddToQueue`. */
  predicate IsNewSession(s: ChatSession, chatId: Guid, userId: string, now: DateTime)
    reads s
  {
    s.id == chatId && s.userId == userId && s.createdDate == now && s.lastPolledAt == now &&
    s.missedPolls == 0 && s.isActive && s.assignedAgent == null
  }

  /** What `UpdateChatSessionPoll` does to the session it finds: the active flag is left alone. */
  function Polled(state: PollState, now: DateTime): PollState
  {
    PollState(0, state.isActive, now)
  }

  class ChatQueueService {
    var chatQueue: seq<ChatSession>
    /** The roster: every admitted session, active or not, until purged. */
    var activeChats: seq<ChatSession>
    var maxQueueSize: int
    const maxQueueSizeWithOverFlow: int
    /** The team on duty when the service was built; never refreshed. */
    const currentTeam: Option<Team>
    ghost const initialMaxQueueSize: int

    /**
     * The ceiling only ever holds its initial value or, during office time,
     * the overflow ceiling; the strict admission test lets the queue hold one
     * entry more than the ceiling; roster entries are distinct objects.
     */
    ghost predicate Valid()
      reads this
    {
      0 <= initialMaxQueueSize <= maxQueueSizeWithOverFlow &&
      (maxQueueSize == initialMaxQueueSize ||
       (maxQueueSize == maxQueueSizeWithOverFlow && IsOfficeTime(currentTeam))) &&
      |chatQueue| <= maxQueueSize + 1 &&
      Distinct(activeChats)
    }

    /** The admission rule: within the ceiling, or below the overflow ceiling during office time. */
    ghost predicate CanAdmit()
      reads this
    {
      |chatQueue| <= maxQueueSize ||
      (IsOfficeTime(currentTeam) && |chatQueue| < maxQueueSizeWithOverFlow)
    }

    /** Captures the team on duty and both ceilings once, at instant `now`. */
    constructor (teamsCreator: TeamsCreator, now: DateTime)
      ensures Valid()
      ensures chatQueue == [] && activeChats == []
      ensures currentTeam == ActiveTeam(teamsCreator.teams, TimeOfDay(now))
      ensures maxQueueSize == initialMaxQueueSize == Capacity(currentTeam)
      ensures maxQueueSizeWithOverFlow == maxQueueSize + Capacity(teamsCreator.GetOverFlowTeam())
    {
      chatQueue := [];
      activeChats := [];
      var team := teamsCreator.GetActiveTeamInCurrentTime(now);
      currentTeam := team;
      var size := teamsCreator.GetMaxQueueSize(now);
      maxQueueSize := size;
      initialMaxQueueSize := size;
      var overflow := teamsCreator.GetOverFlowQueueSize();
      maxQueueSizeWithOverFlow := size + overflow;
    }

    method AddToQueue(chatId: Guid, userId: string, now: DateTime) returns (added: bool)
      requires Valid()
      modifies this
      ensures Valid()
      ensures added == old(CanAdmit())
      ensures old(maxQueueSize) <= maxQueueSize
      ensures maxQueueSize == if added && old(|chatQueue|) > old(maxQueueSize)
                              then maxQueueSizeWithOverFlow else old(maxQueueSize)
      ensures !added ==> chatQueue == old(chatQueue) && activeChats == old(activeChats)
      ensures added ==>
                chatQueue != [] &&
                var s := chatQueue[|chatQueue| - 1];
                fresh(s) && IsNewSession(s, chatId, userId, now) &&
                chatQueue == old(chatQueue) + [s] && activeChats == old(activeChats) + [s]
    {
      if |chatQueue| > maxQueueSize {
        if !IsOfficeTime(currentTeam) {
          return false;
        } else {
          if |chatQueue| < maxQueueSizeWithOverFlow {
            var size := maxQueueSizeWithOverFlow;
            // The source's guard `_maxQueueSize >= _maxQueueSizeWithOverFlow` cannot fire here.
            assert maxQueueSize < maxQueueSizeWithOverFlow;
            maxQueueSize := size;
          } else {
            return false;
          }
        }
      }
      var chatSession := new ChatSession(chatId, userId, now);
      chatQueue := chatQueue + [chatSession];
      activeChats := activeChats + [chatSession];
      return true;
    }

    /** `TryDequeue`: the head of the queue, or none on an empty queue; the roster is untouched. */
    method RemoveFromQueue() returns (chat: Option<ChatSession>)
      requires Valid()
      modifies this`chatQueue
      ensures Valid()
      ensures old(chatQueue) == [] ==> chat.None? && chatQueue == []
      ensures old(chatQueue) != [] ==> chat == Some(old(chatQueue)[0]) && chatQueue == old(chatQueue)[1..]
    {
      if chatQueue == [] {
        return None;
      }
      chat := Some(chatQueue[0]);
      chatQueue := chatQueue[1..];
    }

    function GetActiveChats(): seq<ChatSession>
      reads this, activeChats
    {
      ActiveOf(activeChats)
    }

    function GetAllChats(): seq<ChatSession>
      reads this
    {
      activeChats
    }

    function ChatQueueCurrentSize(): nat
      reads this
    {
      |chatQueue|
    }

    /** The first roster entry carrying the id, active or not. */
    function GetChatById(chatId: Guid): (r: Option<ChatSession>)
      reads this
      ensures r.Some? ==> r.value in activeChats && r.value.id == chatId
      ensures r.None? <==> forall c :: c in activeChats ==> c.id != chatId
    {
      FindById(activeChats, chatId)
    }

    /** A poll resets the miss counter of the first session with that id, active or not. */
    method UpdateChatSessionPoll(chatId: Guid, now: DateTime)
      modifies activeChats
      ensures forall c :: c in activeChats ==>
                c.State() == (if FindById(activeChats, chatId) == Some(c) then Polled(old(c.State()), now)
                              else old(c.State())) &&
                c.assignedAgent == old(c.assignedAgent)
    {
      var chatSession := FindById(activeChats, chatId);
      if chatSession.Some? {
        chatSession.value.lastPolledAt := now;
        chatSession.value.missedPolls := 0;
      }
    }

    /** Binds an agent to the first session with that id; the agent itself is not changed. */
    method UpdateCurrentChatAgent(chatId: Guid, agent: Agent) returns (found: bool)
      modifies activeChats
      ensures found <==> FindById(activeChats, chatId).Some?
      ensures forall c :: c in activeChats ==>
                c.State() == old(c.State()) &&
                c.assignedAgent == (if FindById(activeChats, chatId) == Some(c) then agent else old(c.assignedAgent))
      ensures agent.currentChatCount == old(agent.currentChatCount)
    {
      var chatSession := FindById(activeChats, chatId);
      if chatSession.Some? {
        chatSession.value.assignedAgent := agent;
        return true;
      } else {
        return false;
      }
    }

    /** `RemoveAll(x => !x.IsActive)`: the argument is ignored; returns how many were removed. */
    method RemoveInactivefromChatActiveList(chatId: Guid) returns (removed: int)
      requires Valid()
      modifies this`activeChats
      ensures Valid()
      ensures activeChats == old(ActiveOf(activeChats))
      ensures removed == old(|activeChats|) - |activeChats|
    {
      var kept := ActiveOf(activeChats);
      removed := |activeChats| - |kept|;
      activeChats := kept;
    }
  }

  /**
   * A refused add finds the queue longer than the ceiling in force, which
   * is never below the primary one: the queue then holds more sessions than
   * `GetMaxQueueSize` reported when the service was built.
   */
  lemma RefusalMeansFull(svc: ChatQueueService)
    requires svc.Valid() && !svc.CanAdmit()
    ensures |svc.chatQueue| > svc.maxQueueSize >= svc.initialMaxQueueSize
  {
  }

  /** The queue never holds more than one session beyond the overflow ceiling. */
  lemma QueueWithinCeiling(svc: ChatQueueService)
    requires svc.Valid()
    ensures |svc.chatQueue| <= svc.maxQueueSizeWithOverFlow + 1
    ensures svc.initialMaxQueueSize <= svc.maxQueueSize <= svc.maxQueueSizeWithOverFlow
  {
  }
}
