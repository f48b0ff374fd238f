# AFK bot: reply classification, auth handshake and scheduled behaviours

A Dafny model of the decision logic of a single-file Minecraft AFK bot
(`index.js`). The bot connects with mineflayer and, on spawn, registers and
logs in through an auth plugin over the chat channel. It then plays a chat
script and switches on anti-AFK control states, and it reconnects when the
connection ends. Everything that turns strings and settings into decisions
is modelled as pure functions over `string` (`seq<char>`) and small datatypes:

- `Text`: `String.prototype.includes` as a scan (`Includes`), proved equal to
  the declarative "occurs at some position" (`Occurs`).
- `Colors`: `stripColors`, which replaces `/§[0-9a-fklmnor]/gi` by `''`. It is a
  single left-to-right, non-overlapping pass. The case-insensitive class is
  defined by the written-out ranges and proved equal to JavaScript's
  case-folded class match. A second, cursor-based implementation
  (`ReplaceAllScan`) is proved equal to it.
- `Replies`: the two ordered chains of case-sensitive substring tests on
  the stripped reply. Register replies map to `Registered | AlreadyRegistered |
  InvalidCommand | UnexpectedRegisterReply`. Login replies map to `LoggedIn |
  InvalidPassword | NotRegistered | UnexpectedLoginReply`.
- `Handshake`: the `register → login → catch` chain. `Authenticate` is an
  event-driven view: chat messages arrive in order, and the single
  outstanding one-shot listener consumes one of them. `PromiseChain` is a
  closed-form reading of the promise chain. The two are proved equal. A
  session that gets no reply stays pending for ever, as in the code. Nothing
  bounds the wait.
- `ChatLoop`: the repeating interval loop as a cursor state machine
  (`i := (i + 1) % n`), and the one-shot `forEach`. An empty script in
  repeat mode is modelled as JavaScript runs it: `messages[0]` is
  `undefined`, and `(0 + 1) % 0` is `NaN`. So every tick sends the text
  "undefined".
- `Spawn`: which modules the spawn handler starts for a configuration, the
  anti-AFK control states, and the reconnect decision for bot events.

Facts about `index.js` that the model relies on:

- The register success markers are `successfully registered` and `already
  registered` (index.js:49, 52). The text `registered successfully` is
  neither, so `Replies.ReversedWordingIsUnexpected` shows that such a reply
  rejects registration as unexpected.
- Reconnecting is switched by the flag `utils['auto-reconnect']`
  (index.js:163). Its delay is the separate key `utils['auto-reconnect-delay']`,
  in milliseconds, passed straight to `setTimeout` (index.js:166-168). Only
  `end` reconnects. Terminal signals are not deduplicated, so every `end`
  schedules its own reconnect. Kicks and errors are only logged
  (index.js:148-154).
- Nothing cancels the chat interval, and the wait for an auth reply has no
  timeout.
- An auth failure is logged by the chain's `catch`, and the chain then
  resolves (index.js:98). The spawn handler starts the other modules without
  waiting for the chain at all.
- The chat interval is `repeat-delay` seconds times 1000 (index.js:113). The
  reconnect delay is used as given. Node.js turns a timer delay below 1 ms,
  or above 2147483647 ms, into 1 ms. `Spawn.TimerDelay` models that.

## Model

| member | source | states |
|---|---|---|
| Text.Includes | index.js:49-55 | the left-to-right `includes` scan answers true exactly when the needle occurs at some position of the text |
| Colors.IsCode | index.js:21 | a character is a colour-code character exactly when, folded to upper case as a case-insensitive pattern does, it equals the folding of a member of `[0-9a-fklmnor]`; so the codes are digits, a-f, k-o and r in either case |
| Colors.StripColors | index.js:20-22 | stripping never makes a message longer, and a message with no section sign comes back unchanged |
| Colors.StripChangesIffHasCode | index.js:21 | stripping changes a message exactly when some section sign is directly followed by a code character, and then the result is strictly shorter |
| Colors.StripIsSubsequence | index.js:21 | stripping only deletes characters; the kept ones stay in their original order |
| Colors.StripAppend | index.js:21 | when the first part does not end in a section sign, no match spans the boundary, so the two parts are stripped independently |
| Colors.InsertedCodeVanishes | index.js:21 | a section-sign code inserted anywhere except directly after a section sign does not change the stripped text |
| Colors.NotIdempotent | index.js:21 | the single pass is not idempotent: `§§aa` strips to `§a`, which strips to the empty string |
| Colors.ReplaceAllScan | index.js:21 | the regex engine's cursor walk (two characters skipped per match, one copied per non-match) produces exactly the stripped text |
| Replies.ClassifyRegister | index.js:45-59 | on the stripped reply: Registered iff it contains "successfully registered"; AlreadyRegistered iff it contains "already registered" and not the first marker; InvalidCommand iff it contains "Invalid command" and neither success marker; otherwise unexpected |
| Replies.ClassifyLogin | index.js:69-82 | on the stripped reply: LoggedIn iff it contains "successfully logged in"; InvalidPassword iff it contains "Invalid password" but not the success marker; NotRegistered iff it contains "not registered" and neither earlier marker; otherwise unexpected |
| Replies.RegisterResolvesIff | index.js:49-54 | the register step resolves exactly when either success marker occurs in the stripped reply |
| Replies.SuccessOutranksInvalidCommand | index.js:49-56 | a reply whose stripped text holds either success marker and also "Invalid command", in any order or colouring, resolves registration and is never classed as an invalid command |
| Replies.SuccessBeforeInvalidCommand | index.js:49-56 | an instance: colour-free text with "successfully registered" followed by "Invalid command" is classed as Registered |
| Replies.InvalidPasswordOutranksNotRegistered | index.js:76-79 | a login reply with "Invalid password" and without the success marker is a wrong password even if it also says "not registered" |
| Replies.ClassificationIgnoresInsertedCode | index.js:46-70 | inserting a colour code into a reply (not directly after a section sign) changes neither the register nor the login classification |
| Replies.ColouredLoginConfirmation | index.js:69-75 | `§asuccessfully logged in§r` is a successful login, like the bare text |
| Replies.ReversedWordingIsUnexpected | index.js:49-58 | "registered successfully" matches none of the register markers and is an unexpected reply |
| Handshake.RegisterLine | index.js:42 | the register command is `/register `, the password, a space, and the password again |
| Handshake.LoginLine | index.js:66 | the login command is `/login ` followed by the password |
| Handshake.Feed | index.js:45-85 | offering chat messages in arrival order consumes at most one per message and only appends sent lines |
| Handshake.Authenticate | index.js:95-98 | the handshake over the chat stream keeps at most one step outstanding, never consumes more replies than have arrived, and first sends the register command |
| Handshake.PromiseChain | index.js:95-98 | the closed-form promise chain keeps at most one step outstanding and consumes at most two replies; once it has settled, every command line it sent has had exactly one reply consumed |
| Handshake.Deliver | index.js:40-85 | a chat message is consumed only by an outstanding step; after settlement it changes nothing; only a resolving register reply adds a sent line, and sent lines are only appended |
| Handshake.SettledIgnoresLaterChat | index.js:45-60 | once the chain has settled, no later chat message has any effect, because the one-shot listeners are gone |
| Handshake.AuthenticateIsPromiseChain | index.js:95-98 | feeding the chat stream to the event-driven session gives the same result as reading the promise chain directly |
| Handshake.FeedKeepsOnePending | index.js:95-98 | at most one step is outstanding: the lines sent are the replies consumed plus one while unsettled, and equal to them once settled |
| Handshake.HandshakeSentLines | index.js:40-67 | the first line sent is `/register p p`; `/login p` is sent as the second and last line exactly when the first reply resolved registration |
| Handshake.HandshakeSucceedsIff | index.js:95-98 | authentication succeeds iff the first reply resolves registration and the second classifies as a successful login |
| Handshake.RegisterRejectionIsFinal | index.js:55-58 | a register rejection is the reported error whatever follows, carries the stripped reply, sends no login and consumes exactly one reply; it is the invalid-command error exactly when the reply is classed InvalidCommand, and the unexpected-message error exactly when it matches no marker |
| Handshake.LoginRejectionIsReported | index.js:73-82 | after a resolving register reply, both commands have been sent and the chain settles on the second reply: authenticated exactly when it is a login confirmation, and otherwise the wrong-password, not-registered or unexpected-message error exactly for the matching class, each quoting that reply stripped of colour codes |
| Handshake.HandshakeConsumption | index.js:45-69 | the handshake consumes one reply if registration rejects and two otherwise, never more than have arrived; it settles exactly when it has consumed them |
| Handshake.LaterChatIrrelevant | index.js:69-84 | chat arriving after the two consumed replies does not change the handshake |
| Handshake.ErrorText | index.js:56-81 | every rejection reason quotes the stripped reply, and it starts with "Registration failed: " exactly when the register step rejected |
| Handshake.CatchLog | index.js:98 | the `catch` logs exactly one error line when the chain rejected and none otherwise, and that line quotes the reply |
| ChatLoop.Entry | index.js:111 | a tick sends the script entry at an in-range index, and otherwise the text "undefined"; nothing else is ever sent |
| ChatLoop.CursorAfter | index.js:108-112 | starting from 0, the index stays within a non-empty script after every tick, and is NaN after any tick of an empty one |
| ChatLoop.Advance | index.js:112 | with a non-empty script the next index is again within the script; with an empty one it is NaN |
| ChatLoop.CursorAfterIsModulo | index.js:108-113 | after k ticks the round-robin index is k mod n, so it stays in [0, n) |
| ChatLoop.KthTick | index.js:110-113 | the k-th tick sends `messages[k mod n]` |
| ChatLoop.EmptyScriptSendsUndefined | index.js:108-113 | with an empty script every tick sends "undefined", and from the first tick on the index is NaN |
| ChatLoop.EntryAfter | index.js:110-113 | the k-th tick sends `messages[k mod n]` for a non-empty script and "undefined" for an empty one |
| ChatLoop.RepeatLines | index.js:106-113 | the first `ticks` ticks send `ticks` lines, the k-th being `messages[k mod n]` (or "undefined" for an empty script) |
| ChatLoop.RunRepeating | index.js:106-113 | the interval loop keeps its index within the script and sends exactly the round-robin lines |
| ChatLoop.SendEach | index.js:114-116 | without repeat, every message is sent exactly once, in script order |
| ChatLoop.ThreeTicksOverTwoMessages | index.js:108-113 | with messages "a", "b", three ticks send "a", "b", "a" |
| Spawn.TimerDelay | index.js:110-113 | the timer uses the requested delay when it lies between 1 and 2147483647 ms, and 1 ms otherwise |
| Spawn.ChatPeriodExamples | index.js:107-113 | a `repeat-delay` of 0.5 gives a 500 ms interval; a delay of 0 gives a 1 ms interval |
| Spawn.AntiAfkControls | index.js:131-136 | jump is switched on iff anti-AFK is enabled; sneak iff anti-AFK and its sneak flag are both set, and only after jump; no state is set twice |
| Spawn.ChatPlanFor | index.js:102-116 | the chat module is off iff disabled; it repeats iff enabled with repeat, every `repeat-delay` times 1000 ms (as the timer clamps it) over the script; otherwise it sends the script once |
| Spawn.OnSpawn | index.js:87-136 | on spawn, auth, chat, the movement goal (at the configured block) and each anti-AFK state start exactly when their settings enable them |
| Spawn.ChatLines | index.js:101-116 | the lines of the chat module: none when off, the script once, or one round-robin line per tick |
| Spawn.AuthOnSpawn | index.js:90-99 | the handshake runs iff auto-auth is enabled, and then its first line is the register command with the configured password |
| Spawn.ReconnectOn | index.js:162-170 | an event schedules at most one reconnect, exactly when it is `end` and auto-reconnect is on, with the configured delay |
| Spawn.ReconnectsOver | index.js:163-169 | over a stream of events, at most one reconnect timer per event, and none at all when auto-reconnect is off |
| Spawn.ReconnectCount | index.js:162-170 | over a stream of events, one reconnect is scheduled per `end` event when auto-reconnect is on and none otherwise, each with the configured delay |
| Spawn.KickThenEndReconnectsOnce | index.js:148-170 | a kick followed by the end of the connection schedules exactly one reconnect |

## Left out

- The HTTP status server (index.js:9-17): network I/O with a fixed reply and no decisions.
- Bot creation, plugin loading, `minecraft-data` and pathfinding movements (index.js:25-36, 126-127): these are calls into libraries. The model keeps only the decision to set a goal block and its coordinates.
- The logging-only hooks for `goal_reached`, `death`, `kicked`, `error` and `message` (index.js:140-160): their only effect is console output. The model notes only that kicks and errors schedule no reconnect.
- Console output in general. The model does keep the rejection text and the `catch` line, because they carry the classified reply.
- Real time. Interval ticks are counted, and the reconnect timer is represented by its delay. The recursive `createBot()` that runs after the delay is not modelled. It builds a fresh bot with the same settings, so its handshake starts again from `Handshake.Begin`.
- Listener timing. The model assumes each one-shot `chat` listener is attached before the next chat event is emitted. In the code, the register listener is attached in a deferred promise step (index.js:96). The login listener is attached only after the register promise resolves (index.js:51-54, 97). A chat event emitted in the same event-loop turn as the reply before it, such as two chat packets decoded from one socket read, reaches no listener in the code. The model would hand that event to the next step.
- Spawn.TimerDelay: how the event loop rounds a fractional millisecond delay is not modelled. The requested fractional value is kept as it is.
- The ordering between the deferred `/register` send (a promise microtask) and the synchronous one-shot chat lines and control states in the same spawn handler. This is event-loop scheduling, and the model reports each module's output separately.
- The username of a chat event. It is only logged, and any player's chat line is consumed as the reply.
- JavaScript strings are UTF-16 code units, while the model uses Dafny characters. Every character the code tests is in the Basic Multilingual Plane, so nothing observable changes.
- Colors.IsCode: case folding is modelled only for ASCII letters. A case-insensitive, non-Unicode pattern never folds a non-ASCII character onto an ASCII one, so no non-ASCII character can match the class.
- Settings are modelled as already parsed values of the right types. JavaScript truthiness of settings that are not booleans is not modelled.
