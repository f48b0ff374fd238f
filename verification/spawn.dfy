/** What one bot does with its configuration: the modules it starts when it
    spawns (auto-auth, scripted chat, movement goal, anti-AFK) and the
    reconnect it schedules when the connection ends. */
module Spawn {
  import opened Handshake
  import opened ChatLoop

  /** The `utils`, `position` and auth parts of the settings file that the
      spawn and end handlers read. Delays are numbers as written there,
      fractions included: the chat delay in seconds, the reconnect delay in
      milliseconds. */
  datatype Config = Config(
    autoAuth: bool, password: string,
    chatEnabled: bool, repeat: bool, repeatDelay: real, messages: seq<string>,
    positionEnabled: bool, x: int, y: int, z: int,
    antiAfk: bool, sneak: bool,
    autoReconnect: bool, reconnectDelay: real)

  /** The control states the anti-AFK module can switch on. */
  datatype Control = Jump | Sneak

  /** How the chat module runs, if at all. */
  datatype ChatPlan = NoChat | SendOnce(lines: seq<string>) | RoundRobin(periodMs: real, script: seq<string>)

  /** The pathfinder goal, if one is set. */
  datatype Goal = NoGoal | GoalBlock(x: int, y: int, z: int)

  /** Everything the spawn handler starts. */
  datatype SpawnPlan = SpawnPlan(auth: bool, chat: ChatPlan, goal: Goal, controls: seq<Control>)

  /** The largest delay the timer functions accept, in milliseconds. */
  const TimeoutMax: real := 2147483647.0

  /** The delay a Node.js interval or timeout actually uses for a requested
      one: a delay below 1 ms or above the maximum becomes 1 ms. */
  function TimerDelay(ms: real): (d: real)
    ensures 1.0 <= d <= TimeoutMax
    ensures 1.0 <= ms <= TimeoutMax ==> d == ms
    ensures d != ms ==> d == 1.0
  {
    if 1.0 <= ms <= TimeoutMax then ms else 1.0
  }

  /** The `setControlState(_, true)` calls of the anti-AFK block, in order. */
  function AntiAfkControls(enabled: bool, sneak: bool): (on: seq<Control>)
    ensures Jump in on <==> enabled
    ensures Sneak in on <==> enabled && sneak
    ensures Sneak in on ==> on[0] == Jump
    ensures forall k, l :: 0 <= k < l < |on| ==> on[k] != on[l]
  {
    if !enabled then [] else if sneak then [Jump, Sneak] else [Jump]
  }

  /** The chat module's mode: off, the script once, or the script in a
      round robin every `repeat-delay` seconds. */
  function ChatPlanFor(cfg: Config): (plan: ChatPlan)
    ensures plan.NoChat? <==> !cfg.chatEnabled
    ensures plan.RoundRobin? <==> cfg.chatEnabled && cfg.repeat
    ensures plan.RoundRobin? ==> plan.periodMs == TimerDelay(cfg.repeatDelay * 1000.0) && plan.script == cfg.messages
    ensures plan.SendOnce? ==> plan.lines == cfg.messages
  {
    if !cfg.chatEnabled then NoChat
    else if cfg.repeat then RoundRobin(TimerDelay(cfg.repeatDelay * 1000.0), cfg.messages)
    else SendOnce(cfg.messages)
  }

  /** A half-second chat delay repeats every 500 ms; a zero delay every 1 ms. */
  lemma ChatPeriodExamples(cfg: Config)
    requires cfg.chatEnabled && cfg.repeat
    ensures cfg.repeatDelay == 0.5 ==> ChatPlanFor(cfg).periodMs == 500.0
    ensures cfg.repeatDelay == 0.0 ==> ChatPlanFor(cfg).periodMs == 1.0
  {
  }

  /** The spawn handler: each module is started exactly when it is enabled. */
  function OnSpawn(cfg: Config): (plan: SpawnPlan)
    ensures plan.auth == cfg.autoAuth
    ensures plan.chat.NoChat? <==> !cfg.chatEnabled
    ensures plan.goal.GoalBlock? <==> cfg.positionEnabled
    ensures plan.goal.GoalBlock? ==> plan.goal == GoalBlock(cfg.x, cfg.y, cfg.z)
    ensures Jump in plan.controls <==> cfg.antiAfk
    ensures Sneak in plan.controls <==> cfg.antiAfk && cfg.sneak
  {
    SpawnPlan(
      cfg.autoAuth,
      ChatPlanFor(cfg),
      if cfg.positionEnabled then GoalBlock(cfg.x, cfg.y, cfg.z) else NoGoal,
      AntiAfkControls(cfg.antiAfk, cfg.sneak))
  }

  /** The lines the chat module sends once `ticks` interval ticks have fired. */
  function ChatLines(plan: ChatPlan, ticks: nat): (lines: seq<string>)
    ensures plan.NoChat? ==> lines == []
    ensures plan.SendOnce? ==> lines == plan.lines
    ensures plan.RoundRobin? ==> |lines| == ticks
    ensures plan.RoundRobin? && |plan.script| > 0 ==>
      forall k :: 0 <= k < ticks ==> lines[k] == plan.script[k % |plan.script|]
  {
    match plan
    case NoChat => []
    case SendOnce(lines) => lines
    case RoundRobin(_, script) => RepeatLines(script, ticks)
  }

  /** The auth module on spawn: not run, or the handshake over the chat
      messages that arrive. */
  datatype AuthRun = AuthDisabled | AuthRan(session: Session)

  function AuthOnSpawn(cfg: Config, replies: seq<string>): (run: AuthRun)
    ensures run.AuthDisabled? <==> !cfg.autoAuth
    ensures run.AuthRan? ==> |run.session.sent| >= 1 && run.session.sent[0] == RegisterLine(cfg.password)
  {
    if cfg.autoAuth then
      HandshakeSentLines(cfg.password, replies);
      AuthRan(Authenticate(cfg.password, replies))
    else AuthDisabled
  }

  /** The bot's events that the model distinguishes. */
  datatype BotEvent = End | Kicked(reason: string) | Failure(message: string) | GoalReached | Death

  /** The reconnect timers one event schedules (their delays in milliseconds):
      only `end` reconnects, and only when auto-reconnect is on. */
  function ReconnectOn(cfg: Config, event: BotEvent): (timers: seq<real>)
    ensures |timers| <= 1
    ensures |timers| == 1 <==> cfg.autoReconnect && event == End
    ensures |timers| == 1 ==> timers[0] == TimerDelay(cfg.reconnectDelay)
  {
    if cfg.autoReconnect && event == End then [TimerDelay(cfg.reconnectDelay)] else []
  }

  /** The reconnect timers scheduled over a stream of events. */
  function ReconnectsOver(cfg: Config, events: seq<BotEvent>): (timers: seq<real>)
    ensures |timers| <= |events|
    ensures !cfg.autoReconnect ==> timers == []
    decreases |events|
  {
    if |events| == 0 then [] else ReconnectOn(cfg, events[0]) + ReconnectsOver(cfg, events[1..])
  }

  /** One reconnect per `end` event when auto-reconnect is on, none
      otherwise; kicks and errors never reconnect by themselves, and
      nothing merges repeated `end` events. */
  lemma {:induction false} ReconnectCount(cfg: Config, events: seq<BotEvent>)
    ensures |ReconnectsOver(cfg, events)| == if cfg.autoReconnect then multiset(events)[End] else 0
    ensures forall k :: 0 <= k < |ReconnectsOver(cfg, events)| ==>
      ReconnectsOver(cfg, events)[k] == TimerDelay(cfg.reconnectDelay)
    decreases |events|
  {
    if |events| > 0 {
      ReconnectCount(cfg, events[1..]);
      var head, tail := ReconnectOn(cfg, events[0]), ReconnectsOver(cfg, events[1..]);
      assert ReconnectsOver(cfg, events) == head + tail;
      assert events == [events[0]] + events[1..];
      assert multiset(events) == multiset([events[0]]) + multiset(events[1..]);
      assert multiset(events)[End] == (if events[0] == End then 1 else 0) + multiset(events[1..])[End];
      forall k | 0 <= k < |head + tail|
        ensures (head + tail)[k] == TimerDelay(cfg.reconnectDelay)
      {
        if k >= |head| {
          assert (head + tail)[k] == tail[k - |head|];
        }
      }
    }
  }

  /** A kick followed by the end of the connection schedules one reconnect. */
  lemma KickThenEndReconnectsOnce(cfg: Config, reason: string)
    requires cfg.autoReconnect
    ensures ReconnectsOver(cfg, [Kicked(reason), End]) == [TimerDelay(cfg.reconnectDelay)]
  {
    assert [Kicked(reason), End][1..] == [End];
    assert [End][1..] == [];
  }
}
