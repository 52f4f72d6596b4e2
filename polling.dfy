/**
 * One pass of the liveness loop
 * (MoneyBase.Infrastructure/BackgroundServices/PollingService.cs): every
 * session active at the start of the pass that has gone unpolled for more
 * than ten seconds misses a poll; at the third miss it is deactivated and
 * its agent's slot is released.
 */
module Polling {
  import opened Wrappers
  import opened Domain
  import opened Sorting
  import opened Utils
  import opened Services

  /** `TimeSpan.FromSeconds(10)`. */
  const PollTimeout: int := 10 * TicksPerSecond

  /** The miss count at which a session is deactivated. */
  const MaxMissedPolls: int := 3

  /** The strict staleness test of `PollingService.ExecuteAsync`: more than ten seconds since the last poll. */
  predicate IsStale(state: PollState, now: DateTime)
  {
    now - state.lastPolledAt > PollTimeout
  }

  /** This pass deactivates the session: it is stale and reaches its third miss. */
  predicate Evicts(state: PollState, now: DateTime)
  {
    IsStale(state, now) && state.missedPolls + 1 >= MaxMissedPolls
  }

  /** What the pass does to the poll fields of a session it visits. */
  function PollCheck(state: PollState, now: DateTime): PollState
  {
    if IsStale(state, now) then
      var missed := state.missedPolls + 1;
      PollState(missed, if missed >= MaxMissedPolls then false else state.isActive, state.lastPolledAt)
    else state
  }

  /** `agent?.Id`. */
  function AgentIdOf(agent: Agent?): Option<Guid>
  {
    if agent == null then None else Some(agent.id)
  }

  // ---------------------------------------------------------------- one session over time

  /** One pass on one session: only a session active at the start of the pass is visited. */
  function PassEffect(state: PollState, now: DateTime): PollState
  {
    if state.isActive then PollCheck(state, now) else state
  }

  /** The poll fields after the passes at `times`, with no poll in between. */
  function Sweeps(state: PollState, times: seq<DateTime>): PollState
    decreases |times|
  {
    if times == [] then state else Sweeps(PassEffect(state, times[0]), times[1..])
  }

  /** A client poll or a liveness pass. */
  datatype Event = Poll(at: DateTime) | Pass(at: DateTime)

  /** The poll fields after a run of polls (`UpdateChatSessionPoll`) and passes. */
  function Run(state: PollState, events: seq<Event>): PollState
    decreases |events|
  {
    if events == [] then state
    else
      var next := match events[0]
                  case Poll(t) => Polled(state, t)
                  case Pass(t) => PassEffect(state, t);
      Run(next, events[1..])
  }

  /**
   * One pass never moves the poll time, adds one miss exactly when the
   * session is stale, and deactivates exactly when it evicts.
   */
  lemma PollCheckEffect(state: PollState, now: DateTime)
    ensures PollCheck(state, now).lastPolledAt == state.lastPolledAt
    ensures PollCheck(state, now).missedPolls == state.missedPolls + (if IsStale(state, now) then 1 else 0)
    ensures PollCheck(state, now).isActive == (state.isActive && !Evicts(state, now))
    ensures !IsStale(state, now) ==> PollCheck(state, now) == state
  {
  }

  /**
   * Stale passes with no poll in between leave the poll time alone and an
   * inactive session untouched; an active session below three misses gains
   * one miss per pass until the third, which deactivates it, and is still
   * active afterwards exactly when fewer than three misses have accumulated.
   */
  lemma {:induction false} StaleSweeps(state: PollState, times: seq<DateTime>)
    requires forall k :: 0 <= k < |times| ==> times[k] - state.lastPolledAt > PollTimeout
    ensures Sweeps(state, times).lastPolledAt == state.lastPolledAt
    ensures !state.isActive ==> Sweeps(state, times) == state
    ensures state.isActive && state.missedPolls < MaxMissedPolls ==>
              Sweeps(state, times) ==
                PollState(if state.missedPolls + |times| < MaxMissedPolls then state.missedPolls + |times|
                          else MaxMissedPolls,
                          state.missedPolls + |times| < MaxMissedPolls,
                          state.lastPolledAt)
    ensures state.isActive && state.missedPolls >= MaxMissedPolls && times != [] ==>
              Sweeps(state, times) == PollState(state.missedPolls + 1, false, state.lastPolledAt)
    decreases |times|
  {
    if times != [] {
      var next := PassEffect(state, times[0]);
      assert next.lastPolledAt == state.lastPolledAt;
      forall k | 0 <= k < |times| - 1
        ensures times[1..][k] - next.lastPolledAt > PollTimeout
      {
        assert times[1..][k] == times[k + 1];
      }
      StaleSweeps(next, times[1..]);
    }
  }

  /**
   * A fresh session survives two stale passes, is deactivated with three
   * misses by the third, and is left alone by any later pass.
   */
  lemma ThirdStalePassEvicts(state: PollState, t1: DateTime, t2: DateTime, t3: DateTime, t4: DateTime)
    requires state.missedPolls == 0 && state.isActive
    requires t1 - state.lastPolledAt > PollTimeout && t2 - state.lastPolledAt > PollTimeout
    requires t3 - state.lastPolledAt > PollTimeout
    ensures Sweeps(state, [t1, t2]).isActive
    ensures !Sweeps(state, [t1, t2, t3]).isActive && Sweeps(state, [t1, t2, t3]).missedPolls == 3
    ensures Sweeps(state, [t1, t2, t3, t4]) == Sweeps(state, [t1, t2, t3])
  {
    StaleSweeps(state, [t1, t2]);
    StaleSweeps(state, [t1, t2, t3]);
    var s3 := Sweeps(state, [t1, t2, t3]);
    SweepsSnoc(state, [t1, t2, t3], t4);
    assert [t1, t2, t3] + [t4] == [t1, t2, t3, t4];
    assert PassEffect(s3, t4) == s3;
  }

  /** A further pass applies to the state the earlier ones leave. */
  lemma {:induction false} SweepsSnoc(state: PollState, times: seq<DateTime>, t: DateTime)
    ensures Sweeps(state, times + [t]) == PassEffect(Sweeps(state, times), t)
    decreases |times|
  {
    if times == [] {
      assert [] + [t] == [t];
      assert [t][1..] == [];
    } else {
      assert (times + [t])[1..] == times[1..] + [t];
      SweepsSnoc(PassEffect(state, times[0]), times[1..], t);
    }
  }

  /** Nothing reactivates a session: a poll leaves the flag alone and a pass only clears it. */
  lemma {:induction false} InactiveStaysInactive(state: PollState, events: seq<Event>)
    requires !state.isActive
    ensures !Run(state, events).isActive
    decreases |events|
  {
    if events != [] {
      var next := match events[0]
                  case Poll(t) => Polled(state, t)
                  case Pass(t) => PassEffect(state, t);
      assert !next.isActive;
      InactiveStaysInactive(next, events[1..]);
    }
  }

  /** A session polled within ten seconds of every pass never misses a poll. */
  lemma {:induction false} KeptAliveByPolls(state: PollState, polls: seq<DateTime>, passes: seq<DateTime>)
    requires |polls| == |passes| && state.isActive
    requires forall k :: 0 <= k < |polls| ==> passes[k] - polls[k] <= PollTimeout
    ensures Run(state, Alternate(polls, passes)).isActive
    ensures polls != [] ==> Run(state, Alternate(polls, passes)).missedPolls == 0
    decreases |polls|
  {
    if polls != [] {
      var next := PassEffect(Polled(state, polls[0]), passes[0]);
      assert next == Polled(state, polls[0]);
      assert Alternate(polls, passes)[2..] == Alternate(polls[1..], passes[1..]);
      forall k | 0 <= k < |polls| - 1
        ensures passes[1..][k] - polls[1..][k] <= PollTimeout
      {
        assert passes[1..][k] == passes[k + 1] && polls[1..][k] == polls[k + 1];
      }
      KeptAliveByPolls(next, polls[1..], passes[1..]);
    }
  }

  /** Each poll followed by a pass. */
  function Alternate(polls: seq<DateTime>, passes: seq<DateTime>): (r: seq<Event>)
    requires |polls| == |passes|
    ensures |r| == 2 * |polls|
    ensures polls != [] ==> r[0] == Poll(polls[0]) && r[1] == Pass(passes[0])
    decreases |polls|
  {
    if polls == [] then [] else [Poll(polls[0]), Pass(passes[0])] + Alternate(polls[1..], passes[1..])
  }

  // ---------------------------------------------------------------- releases

  /** The ids the pass hands to `DecrementAgentChatCount`, in visiting order. */
  function Releases(chats: seq<ChatSession>, now: DateTime): seq<Option<Guid>>
    reads set c | c in chats
    decreases |chats|
  {
    if chats == [] then []
    else
      var n := |chats| - 1;
      assert forall k :: 0 <= k < n ==> chats[..n][k] == chats[k];
      Releases(chats[..n], now) +
        (if Evicts(chats[n].State(), now) then [AgentIdOf(chats[n].assignedAgent)] else [])
  }

  /** How many of `ids` release a slot of `a` at that time of day. */
  function Released(tc: TeamsCreator, ids: seq<Option<Guid>>, timeOfDay: int, a: Agent): nat
    requires tc.Valid()
    decreases |ids|
  {
    if ids == [] then 0
    else
      var n := |ids| - 1;
      Released(tc, ids[..n], timeOfDay, a) + (if tc.DecrementTarget(ids[n], timeOfDay) == Some(a) then 1 else 0)
  }

  /**
   * A release reaches only an agent of the team on duty at the time of the
   * pass, one slot per evicted session at most; an unassigned session
   * releases nothing.
   */
  lemma {:induction false} ReleasedOnlyOnDuty(tc: TeamsCreator, ids: seq<Option<Guid>>, timeOfDay: int, a: Agent)
    requires tc.Valid()
    ensures Released(tc, ids, timeOfDay, a) <= |ids|
    ensures Released(tc, ids, timeOfDay, a) > 0 ==>
              ActiveTeam(tc.teams, timeOfDay).Some? && a in ActiveTeam(tc.teams, timeOfDay).value.agents &&
              Some(a.id) in ids
    ensures (forall k :: 0 <= k < |ids| ==> ids[k] == None) ==> Released(tc, ids, timeOfDay, a) == 0
    decreases |ids|
  {
    if ids != [] {
      var n := |ids| - 1;
      ReleasedOnlyOnDuty(tc, ids[..n], timeOfDay, a);
      if Released(tc, ids[..n], timeOfDay, a) > 0 {
        var k :| 0 <= k < n && ids[..n][k] == Some(a.id);
        assert ids[k] == Some(a.id);
      }
    }
  }

  /**
   * For an agent of the team on duty the count is exact: it loses one slot
   * per handed-over id that is its own.
   */
  lemma {:induction false} ReleasedOnDutyExact(tc: TeamsCreator, ids: seq<Option<Guid>>, timeOfDay: int, a: Agent)
    requires tc.Valid() && ActiveTeam(tc.teams, timeOfDay).Some?
    requires a in ActiveTeam(tc.teams, timeOfDay).value.agents
    ensures Released(tc, ids, timeOfDay, a) == multiset(ids)[Some(a.id)]
    decreases |ids|
  {
    if ids != [] {
      var n := |ids| - 1;
      ReleasedOnDutyExact(tc, ids[..n], timeOfDay, a);
      DecrementTargetOnDuty(tc, timeOfDay, a);
      assert ids == ids[..n] + [ids[n]];
    }
  }

  // ---------------------------------------------------------------- the pass

  /** `Releases` on snapshots of the poll fields and bindings. */
  function ReleasesBy(chats: seq<ChatSession>, states: map<ChatSession, PollState>,
                      bound: map<ChatSession, Agent?>, now: DateTime): seq<Option<Guid>>
    requires forall k :: 0 <= k < |chats| ==> chats[k] in states && chats[k] in bound
    decreases |chats|
  {
    if chats == [] then []
    else
      var n := |chats| - 1;
      assert forall k :: 0 <= k < n ==> chats[..n][k] == chats[k];
      ReleasesBy(chats[..n], states, bound, now) +
        (if Evicts(states[chats[n]], now) then [AgentIdOf(bound[chats[n]])] else [])
  }

  /** On the state it was taken from, the snapshot yields the same releases. */
  lemma {:induction false} ReleasesBySnapshot(chats: seq<ChatSession>, states: map<ChatSession, PollState>,
                                             bound: map<ChatSession, Agent?>, now: DateTime)
    requires forall k :: 0 <= k < |chats| ==>
               chats[k] in states && chats[k] in bound &&
               states[chats[k]] == chats[k].State() && bound[chats[k]] == chats[k].assignedAgent
    ensures ReleasesBy(chats, states, bound, now) == Releases(chats, now)
    decreases |chats|
  {
    if chats != [] {
      var n := |chats| - 1;
      assert forall k :: 0 <= k < n ==> chats[..n][k] == chats[k];
      ReleasesBySnapshot(chats[..n], states, bound, now);
    }
  }

  /**
   * The state after the first `i` sessions of the snapshot were examined:
   * those carry their checked poll fields, the rest of the roster its old
   * ones, no binding moved, and each agent lost one chat per release so far.
   */
  ghost predicate SweepInv(tc: TeamsCreator, chats: seq<ChatSession>, i: nat, roster: seq<ChatSession>,
                           states0: map<ChatSession, PollState>, bound0: map<ChatSession, Agent?>,
                           counts0: map<Agent, int>, now: DateTime)
    reads roster, tc.allAgents
  {
    tc.Valid() && i <= |chats| && Distinct(chats) &&
    (forall k :: 0 <= k < |chats| ==> chats[k] in roster) &&
    (forall c :: c in roster ==>
       c in states0 && c in bound0 && c.assignedAgent == bound0[c] &&
       c.State() == (if c in chats[..i] then PollCheck(states0[c], now) else states0[c])) &&
    (forall a :: a in tc.allAgents ==>
       a in counts0 &&
       a.currentChatCount == counts0[a] - Released(tc, ReleasesBy(chats[..i], states0, bound0, now), TimeOfDay(now), a))
  }

  /** Snapshots the state the pass starts from; no session has been examined. */
  lemma SweepStart(tc: TeamsCreator, chats: seq<ChatSession>, roster: seq<ChatSession>, now: DateTime)
    returns (states0: map<ChatSession, PollState>, bound0: map<ChatSession, Agent?>, counts0: map<Agent, int>)
    requires tc.Valid() && Distinct(chats)
    requires forall k :: 0 <= k < |chats| ==> chats[k] in roster
    ensures SweepInv(tc, chats, 0, roster, states0, bound0, counts0, now)
    ensures forall c :: c in roster ==> c in states0 && c in bound0 && states0[c] == c.State() && bound0[c] == c.assignedAgent
    ensures forall a :: a in tc.allAgents ==> a in counts0 && counts0[a] == a.currentChatCount
    ensures ReleasesBy(chats, states0, bound0, now) == Releases(chats, now)
  {
    states0 := map c | c in roster :: c.State();
    bound0 := map c | c in roster :: c.assignedAgent;
    counts0 := map a | a in tc.allAgents :: a.currentChatCount;
    assert chats[..0] == [];
    ReleasesBySnapshot(chats, states0, bound0, now);
  }

  lemma ReleasesBySnoc(chats: seq<ChatSession>, i: nat, states: map<ChatSession, PollState>,
                       bound: map<ChatSession, Agent?>, now: DateTime)
    requires i < |chats|
    requires forall k :: 0 <= k < |chats| ==> chats[k] in states && chats[k] in bound
    ensures ReleasesBy(chats[..i + 1], states, bound, now) ==
            ReleasesBy(chats[..i], states, bound, now) +
            (if Evicts(states[chats[i]], now) then [AgentIdOf(bound[chats[i]])] else [])
  {
    assert chats[..i + 1][..i] == chats[..i];
  }

  lemma ReleasedSnoc(tc: TeamsCreator, ids: seq<Option<Guid>>, extra: seq<Option<Guid>>, timeOfDay: int, a: Agent)
    requires tc.Valid() && |extra| <= 1
    ensures Released(tc, ids + extra, timeOfDay, a) ==
            Released(tc, ids, timeOfDay, a) +
            (if extra != [] && tc.DecrementTarget(extra[0], timeOfDay) == Some(a) then 1 else 0)
  {
    if extra != [] {
      assert (ids + extra)[..|ids|] == ids;
    } else {
      assert ids + extra == ids;
    }
  }

  /** The body of the pass's `ForEach` for the `i`-th session of the snapshot. */
  method Check(tc: TeamsCreator, chats: seq<ChatSession>, i: nat, ghost roster: seq<ChatSession>,
               ghost states0: map<ChatSession, PollState>, ghost bound0: map<ChatSession, Agent?>,
               ghost counts0: map<Agent, int>, now: DateTime)
    requires i < |chats|
    requires SweepInv(tc, chats, i, roster, states0, bound0, counts0, now)
    modifies chats[i], tc.allAgents
    ensures SweepInv(tc, chats, i + 1, roster, states0, bound0, counts0, now)
  {
    var chat := chats[i];
    assert chat in roster;
    assert chats[..i + 1] == chats[..i] + [chat];
    assert chat !in chats[..i];
    ghost var extra := if Evicts(states0[chat], now) then [AgentIdOf(bound0[chat])] else [];
    ReleasesBySnoc(chats, i, states0, bound0, now);
    forall a | a in tc.allAgents
      ensures Released(tc, ReleasesBy(chats[..i], states0, bound0, now) + extra, TimeOfDay(now), a) ==
              Released(tc, ReleasesBy(chats[..i], states0, bound0, now), TimeOfDay(now), a) +
              (if extra != [] && tc.DecrementTarget(extra[0], TimeOfDay(now)) == Some(a) then 1 else 0)
    {
      ReleasedSnoc(tc, ReleasesBy(chats[..i], states0, bound0, now), extra, TimeOfDay(now), a);
    }
    var evicted := Mark(chat, now);
    if evicted {
      var agent := chat.assignedAgent;
      tc.DecrementAgentChatCount(AgentIdOf(agent), now);
    }
  }

  /** The pass on one visited session: a stale one misses a poll, and is deactivated at the third miss. */
  method Mark(chat: ChatSession, now: DateTime) returns (evicted: bool)
    modifies chat
    ensures chat.State() == PollCheck(old(chat.State()), now) && chat.assignedAgent == old(chat.assignedAgent)
    ensures evicted == Evicts(old(chat.State()), now)
  {
    evicted := false;
    if now - chat.lastPolledAt > PollTimeout {
      chat.missedPolls := chat.missedPolls + 1;
      if chat.missedPolls >= MaxMissedPolls {
        chat.isActive := false;
        evicted := true;
      }
    }
  }

  /**
   * One pass of the liveness loop at instant `now`: the sessions active at
   * its start are checked, every other roster entry is left alone, and the
   * agents of evicted sessions have their slots released.
   */
  method Sweep(tc: TeamsCreator, svc: ChatQueueService, now: DateTime)
    requires tc.Valid() && svc.Valid()
    modifies svc.activeChats, tc.allAgents
    ensures svc.activeChats == old(svc.activeChats)
    ensures forall c :: c in svc.activeChats ==>
              c.assignedAgent == old(c.assignedAgent) &&
              c.State() == PassEffect(old(c.State()), now)
    ensures forall a :: a in tc.allAgents ==>
              a.currentChatCount ==
                old(a.currentChatCount) - Released(tc, old(Releases(ActiveOf(svc.activeChats), now)), TimeOfDay(now), a)
  {
    var chats := svc.GetActiveChats();
    ghost var roster := svc.activeChats;
    ghost var states0, bound0, counts0 := SweepStart(tc, chats, roster, now);
    for i := 0 to |chats|
      invariant SweepInv(tc, chats, i, roster, states0, bound0, counts0, now)
    {
      Check(tc, chats, i, roster, states0, bound0, counts0, now);
    }
    assert chats[..|chats|] == chats;
    forall c | c in roster
      ensures c in chats <==> old(c.isActive)
    {
      var k :| 0 <= k < |roster| && roster[k] == c;
    }
  }
}
