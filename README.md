# mqtt-velux bridge, modelled in Dafny

mqtt-velux bridges an MQTT message bus and a Velux KLF gateway. Inbound bus
messages on `prefix/<node>/<action>` become `set_position` calls on the
gateway's nodes, and `prefix/echo/...` is echoed back. Device updates are
published as `position` and `closed` under the response prefix. A poll loop
publishes each node's limitation minimum on `rain` until a signal sets `done`.
Two lifecycle announcements go out on `<response>/mqtt-velux/system/message`:
"started: <names>" and "ended.".

The bridge moves positions between three vocabularies:

- the bus percentage, 0 = open and 100 = closed;
- the command words `open`, `close` and `closed`;
- the device percentage, 0 = closed and 100 = open.

The mapping is inverted in one place on the way in, at `vlx_set_position`, and
inverted back in one place on the way out, at `on_device_updated`.

The project is organised as follows:

- `options.dfy` (module `Options`): `Option` and `Result`.
- `text.dfy` (module `Text`): the Python string operations the bridge uses,
  over `seq<char>`:
  - ASCII `lower`;
  - `replace` of one character;
  - `replace(pat, '', 1)`;
  - `split(sep, 1)`;
  - `join`;
  - `isdigit` and `int`;
  - `str` of an integer.
- `positions.dfy` (module `Positions`):
  - the truthy list;
  - the retain flag;
  - the rewrite the `closed` action applies;
  - the translation of a command string to a device percentage;
  - the texts published back.
- `topics.dfy` (module `Topics`): parsing the inbound topic, and building the
  outbound topics (a `-` in a node name becomes a `/` level).
- `routing.dfy` (module `Routing`): the same behaviour written as pure values.
  - the route one inbound message takes;
  - the gateway calls a queue of commands makes;
  - the publishes of one device update and of one poll pass.
- `bridge.dfy` (module `VeluxBridge`): class `Bridge`, holding the process
  state:
  - node names;
  - the `done` flag;
  - the log of publishes;
  - the queue of commands handed to the device context;
  - the log of gateway calls.

  Its methods are the callbacks and the steps of `main`. Each method is
  proved against the functions of `Routing` and of this module.
- `scenarios.dfy` (module `Scenarios`): one command, from the inbound message
  to the device's report.

Inputs from outside the process are parameters of the model:

- the messages delivered;
- the devices discovered;
- the gateway's replies to limitation queries, one map per poll pass;
- whether a signal arrives during startup, and whether one arrives during a pass.

The handoff to the device context (`asyncio.run_coroutine_threadsafe`) is a
FIFO queue `pending`, and `RunNext` runs its oldest entry.

### Behaviour worth knowing

Each of these is a fact about the code, and the model keeps it:

- The topic `prefix/echo` with no further segment is rejected. `split("/", 1)`
  leaves no action segment, so the IndexError is caught and logged. Only
  `prefix/echo/<anything>` echoes. See `Routing.RouteEchoWithoutAction`.
- On the `closed` action a truthy payload is rewritten to "0". That is a bus
  percentage, so the gateway is asked for device percentage 100 (open),
  whatever the action's name suggests. A falsy payload asks for 0 (closed).
  See `Positions.ClosedTrueActsAsOpen`.
- Digit strings have no 0–100 range check: "150" asks for device percentage
  -50. See `Positions.TranslateEdgeCases`.
- A failing limitation query in the poll loop is not caught. It leaves `main`
  (`Exit.Crashed`); the remaining devices of that pass are not queried.
- The `retain` option is compared with the truthy list without lower-casing,
  so "True" gives no retain flag.
- A signal that arrives before startup skips startup and the loop. The later
  `vlx.disconnect()` on the placeholder `{}` then raises, so "ended." is never
  announced (`Exit.Crashed`).
- Before startup `vlx` is still the placeholder `{}`. `vlx.nodes` then raises
  an AttributeError, which the message callback catches and logs. The model
  has the same outcome with an empty node list: every non-echo command is
  dropped.

## Model

| member | source | states |
|---|---|---|
| Text.Lower | mqtt-velux.py:61 | same length; every character is ASCII-lower-cased, the rest unchanged; no upper-case letter is left |
| Text.LowerIdempotent | mqtt-velux.py:61 | lower-casing twice equals lower-casing once |
| Text.ReplaceChar | mqtt-velux.py:96 | same length; every `from` becomes `to` and nothing else changes; no `from` is left |
| Text.FindFrom | mqtt-velux.py:52 | the index found is an occurrence with no earlier occurrence; `None` only when there is no occurrence |
| Text.RemoveFirstSpec | mqtt-velux.py:52 | `replace(pat, '', 1)` removes exactly the leftmost occurrence and keeps a string without one unchanged |
| Text.RemoveLeading | mqtt-velux.py:52 | a topic that starts with `prefix/` loses exactly that prefix |
| Text.SplitOnce | mqtt-velux.py:52-54 | no result exactly when the separator is absent; otherwise the parts rebuild the string and the first holds no separator |
| Text.SplitOnceAt | mqtt-velux.py:52-54 | the split is unique: it cuts at the first separator |
| Text.RemoveFirst | mqtt-velux.py:52 | `replace(pat, '', 1)`; what it removes is stated by `Text.RemoveFirstSpec` and `Text.RemoveLeading` |
| Text.Join | mqtt-velux.py:160 | `sep.join`; its growth is stated by `Text.JoinSnoc` |
| Text.IsDigits | mqtt-velux.py:79 | `isdigit` on ASCII; which strings it admits is stated by `Positions.Translate` and `Positions.TranslateEdgeCases` |
| Text.DigitsValue | mqtt-velux.py:79 | `int` on a digit string; it inverts `str` by `Text.NatToStringValue` and `Text.NatToStringOfCanonical` |
| Text.JoinSnoc | mqtt-velux.py:160 | `", ".join` of one more name adds the separator and that name |
| Text.NatToString | mqtt-velux.py:97 | `str` of a natural number is a canonical digit string |
| Text.IntToString | mqtt-velux.py:97 | `str` of an integer: canonical digits, with a leading "-" exactly for a negative number |
| Text.NatToStringValue | mqtt-velux.py:97 | reading back `str(n)` with `int` gives `n` |
| Text.LeadingNonZeroPositive | mqtt-velux.py:79 | a digit string whose first digit is not zero has a positive value |
| Text.NatToStringOfCanonical | mqtt-velux.py:79 | `str(int(d)) == d` for every canonical digit string `d` |
| Text.IntToStringInjective | mqtt-velux.py:97 | two integers with the same text are equal |
| Positions.RetainFlag | mqtt-velux.py:140 | the retain flag is set only by a configured value that is already lower case |
| Positions.RetainCaseSensitive | mqtt-velux.py:140 | "True" sets no retain flag although it is truthy once lower-cased |
| Positions.ClosedRewrite | mqtt-velux.py:66-67 | the rewritten payload is a canonical digit string, and it is "0" exactly when the payload is truthy |
| Positions.Translate | mqtt-velux.py:77-82 | a translation exists exactly for open, close, closed and digit strings; open gives 100; close and closed give 0; digits `d` give `100 - int(d)`; a negative result only comes from digits above 100 |
| Positions.TranslateEdgeCases | mqtt-velux.py:79 | "150" gives -50; empty, signed, alphabetic and capitalised strings give no translation |
| Positions.PositionText | mqtt-velux.py:97 | `str(100 - pct)`; its round trip with `Translate` is stated by `Positions.TranslateThenPublish` |
| Positions.ClosedText | mqtt-velux.py:100 | `str(pct == 0)`; its agreement with the position text is stated by `Positions.ClosedAgreesWithPosition` |
| Positions.TranslateThenPublish | mqtt-velux.py:79 | round trip through the device: a digit string is published back as `str(int(d))`, and exactly as `d` when canonical |
| Positions.LeadingZeroRoundTrip | mqtt-velux.py:79 | "030" asks for 70, and 70 is published back as "30" |
| Positions.ClosedAgreesWithPosition | mqtt-velux.py:96-103 | the closed text is "True" exactly when the position text is "100" |
| Positions.ClosedActionTranslation | mqtt-velux.py:66-67 | on the `closed` action, a truthy payload asks for device percentage 100 and any other payload for 0 |
| Positions.ClosedTrueActsAsOpen | mqtt-velux.py:66-67 | a truthy `closed` command asks for the same percentage as "open", which is then published as not closed |
| Topics.ParseCommandTopic | mqtt-velux.py:52-54 | a parse exists exactly when a "/" is left after the prefix is removed; node and action rebuild the rest; the node holds no "/" |
| Topics.ParseCommandTopicInverse | mqtt-velux.py:52-54 | parsing `prefix/node/action` gives node and action back, for every node without "/" |
| Topics.ParseWithoutAction | mqtt-velux.py:52-54 | `prefix/node` with no action segment is malformed |
| Topics.ParseExamples | mqtt-velux.py:52-54 | `home/bath/closed` parses to `bath` and `closed`; `home/a/b/c` parses to node `a` and action `b/c` |
| Topics.NodePath | mqtt-velux.py:96 | the node path has the name's length, every "-" becomes "/", and no "-" is left |
| Topics.NodePathLevels | mqtt-velux.py:96 | a name without "-" is its own path; each "-" adds one level |
| Topics.NodePathExample | mqtt-velux.py:96 | `living-room` becomes `living/room` |
| Topics.StateTopic | mqtt-velux.py:96 | `<response>/<node path>/<attribute>`, as at lines 96, 102 and 176; its distinctness is stated by `Topics.StateTopicAttributesDiffer` and `Routing.RainIsNotState` |
| Topics.EchoTopic | mqtt-velux.py:57 | `<response>/echo`; its use is stated by `VeluxBridge.Bridge.OnMessage` |
| Topics.SystemMessageTopic | mqtt-velux.py:163 | `<response>/mqtt-velux/system/message`, as at lines 163 and 189; its use is stated by `VeluxBridge.Bridge.Startup` and `VeluxBridge.Bridge.Shutdown` |
| Topics.StateTopicExample | mqtt-velux.py:96 | the position topic of `living-room` under `resp` is `resp/living/room/position` |
| Topics.StateTopicAttributesDiffer | mqtt-velux.py:96-102 | different attributes of one device never share a topic |
| Routing.CommandPosition | mqtt-velux.py:66-67 | on `closed` the submitted position is a canonical digit string that translates to 100 for a truthy payload and to 0 otherwise; on every other action it is the lower-cased payload itself |
| Routing.RouteMessage | mqtt-velux.py:50-74 | an echo carries the payload verbatim; a submitted command names a known node other than `echo`, with no "/"; a message is rejected as malformed exactly when its topic does not parse |
| Routing.RouteEcho | mqtt-velux.py:55-60 | `prefix/echo/<x>` echoes the payload whatever the node set holds |
| Routing.RouteEchoWithoutAction | mqtt-velux.py:52-55 | `prefix/echo` alone is dropped as malformed before the echo test |
| Routing.RouteUnknown | mqtt-velux.py:63-64 | a node outside the node set is rejected as unknown |
| Routing.RouteKnown | mqtt-velux.py:61-72 | a known node gets exactly one command carrying the lower-cased payload, rewritten on `closed` |
| Routing.RouteClosedAction | mqtt-velux.py:61-67 | a `closed` command always translates: truthy in any letter case asks for 100, anything else for 0 |
| Routing.CallOf | mqtt-velux.py:76-84 | a command makes at most one call; which one is stated by `Routing.CallOfSpec` |
| Routing.CallOfSpec | mqtt-velux.py:76-84 | a command makes a call exactly when its position is open, close, closed or a digit string; the call is on the command's node, at 100 for open, 0 for close and closed, and `100 - int(d)` for digits `d` |
| Routing.Calls | mqtt-velux.py:72-84 | a queue of commands makes no more calls than it has commands |
| Routing.CallsAppend | mqtt-velux.py:72 | running two batches in turn makes the calls of both, in order |
| Routing.CallsFromCommands | mqtt-velux.py:76-84 | every call comes from a queued command on the same node with that translated percentage |
| Routing.CallsAllValid | mqtt-velux.py:76-84 | when every position is valid, command `i` makes call `i`: nothing is lost or duplicated |
| Routing.StatePublishes | mqtt-velux.py:87-104 | nothing for a non-opening device or an unknown position; otherwise `str(100 - pct)` on the position topic and then "True" or "False" (true exactly when `pct == 0`) on the closed topic, all with the retain flag |
| Routing.ReportAfterCommand | mqtt-velux.py:93-104 | a device that reached the percentage a digit string asked for publishes `str(int(d))`, and publishes closed exactly when `int(d)` is 100 |
| Routing.FirstFailure | mqtt-velux.py:169-172 | every node before the index answered the limitation query, and the node at the index failed |
| Routing.RainPublishesSpec | mqtt-velux.py:169-178 | a pass publishes for every node exactly when every query succeeds; each publish is that node's rain topic with its minimum value, in node order |
| Routing.RainPublishes | mqtt-velux.py:169-178 | the rain publishes of one pass; stated by `Routing.RainPublishesSpec` and `VeluxBridge.Bridge.PollPass` |
| Routing.RainIsNotState | mqtt-velux.py:96-102 | a rain topic is never a position or closed topic of any node |
| VeluxBridge.StartedMessage | mqtt-velux.py:162-165 | "started: " and the names joined by ", " on the system topic; its use is stated by `VeluxBridge.Bridge.Startup` |
| VeluxBridge.EndedMessage | mqtt-velux.py:188-191 | "ended." on the system topic; its use is stated by `VeluxBridge.Bridge.Shutdown` |
| VeluxBridge.PollLog | mqtt-velux.py:168-181 | the publishes of the passes run, one pass after another; stated by `VeluxBridge.PollLogSnoc`, `VeluxBridge.PollLogHasNoState` and `VeluxBridge.Bridge.PollLoop` |
| VeluxBridge.ServeExit | mqtt-velux.py:168-191 | how the main sequence ends after startup: crash on a failed pass, a clean end after a signalled pass, still running otherwise; stated by `VeluxBridge.Bridge.Serve` |
| VeluxBridge.PassesRun | mqtt-velux.py:168-181 | the loop runs no more passes than are given, and none only when none are given |
| VeluxBridge.PassesRunUpTo | mqtt-velux.py:168-181 | the loop runs every pass up to and including the first failing or signalled one |
| VeluxBridge.PassesRunAll | mqtt-velux.py:168-181 | when no pass stops the loop, all run |
| VeluxBridge.PollLogSnoc | mqtt-velux.py:168-178 | one more pass appends its rain publishes to the poll log |
| VeluxBridge.PollLogHasNoState | mqtt-velux.py:169-180 | the poll loop publishes only rain topics of known nodes, never a position or closed topic |
| VeluxBridge.Bridge.constructor | mqtt-velux.py:38-44 | no nodes, not started, `done` unset, empty logs and queue; retain flag from the configured option |
| VeluxBridge.Bridge.OnMessage | mqtt-velux.py:50-74 | publishes exactly the echo of an echo route, queues exactly the command of a submit route, and makes no gateway call |
| VeluxBridge.Bridge.Handoff | mqtt-velux.py:72 | the command joins the end of the device context's queue; the promised calls grow by exactly that command's calls; only known nodes are queued |
| VeluxBridge.Bridge.RunNext | mqtt-velux.py:76-84 | runs the oldest queued command: one call when its position translates, none otherwise; calls made plus calls promised are unchanged |
| VeluxBridge.Bridge.OnDeviceUpdated | mqtt-velux.py:87-104 | appends exactly the state publishes of the device |
| VeluxBridge.Bridge.Startup | mqtt-velux.py:152-165 | without a prior signal: records the discovered names and announces them joined by ", "; with one: changes nothing |
| VeluxBridge.Bridge.PollPass | mqtt-velux.py:169-180 | completes exactly when every query succeeds, and appends exactly the rain publishes up to the first failure |
| VeluxBridge.Bridge.SignalHandler | mqtt-velux.py:194-198 | sets `done` and nothing else |
| VeluxBridge.Bridge.Shutdown | mqtt-velux.py:184-191 | announces "ended." exactly when startup ran, and fails otherwise |
| VeluxBridge.Bridge.LoopPass | mqtt-velux.py:169-180 | one pass of the loop completes exactly when every query succeeds, and its publishes extend the poll log of the passes before it |
| VeluxBridge.Bridge.PollLoop | mqtt-velux.py:167-181 | publishes exactly the poll log of the passes that run; crashes exactly when the last one failed; otherwise `done` is set exactly when the last one was signalled |
| VeluxBridge.Bridge.Serve | mqtt-velux.py:152-191 | the whole publish log is the start announcement, then the poll log, then "ended." exactly on a clean end; a signal during startup gives exactly "started: …" then "ended." with no pass and a clean end; a signal before startup ends in a crash with nothing published and nothing started; once set, `done` stays set |
| Scenarios.ThirtyFacts | mqtt-velux.py:61-97 | "30" lower-cases to itself, translates to device percentage 70, and 70 is published back as "30" |
| Scenarios.KitchenTopics | mqtt-velux.py:96-102 | the position and closed topics of `kitchen` under `resp` |
| Scenarios.KitchenCommand | mqtt-velux.py:50-84 | `home/kitchen/set` with "30" routes to one command for `kitchen`, which asks the gateway for 70 |
| Scenarios.KitchenBridge | mqtt-velux.py:140-165 | a bridge started with the single node `kitchen` has announced once and queued nothing |
| Scenarios.KitchenCommandRun | mqtt-velux.py:50-84 | after the message and the device context's run, the gateway log is exactly the call at 70 and the queue is empty |
| Scenarios.NotRetained | mqtt-velux.py:140 | the configured "no" gives no retain flag |
| Scenarios.KitchenReport | mqtt-velux.py:93-104 | the kitchen device at 70 publishes "30" on position and "False" on closed |
| Scenarios.KitchenScenario | mqtt-velux.py:50-104 | `home/kitchen/set` with "30" makes exactly the gateway call at 70; after the device reports 70 the log ends with position "30" and closed "False" |

## Left out

- The MQTT client's connection and subscription (`on_mqtt_connect`), and the
  transport itself. `published` records each publish call in the order made.
- The gateway connection and `load_nodes`. The discovered devices are a
  parameter of `Startup` and `Serve`.
- Payload bytes and UTF-8 decoding. Payloads are decoded text, so a decode
  error is not modelled.
- Non-ASCII behaviour of `str.lower` and `str.isdigit`. Both are modelled on
  ASCII only.
- Validation of the value passed to `Position(position_percent=pct)`.
  Out-of-range percentages such as -50 are recorded as calls. The error the
  library would raise inside the device context is not modelled.
- `await asyncio.sleep(60)` and all timing. The model uses no clock.
- Logging, `DebugStreamHandler` and the system diagnostic topics, which only
  exist in debug mode.
- Option parsing with `getopt`, reading the configuration file, and the
  `eval` of `auth` and `port`.
- Registering the signal handlers for SIGINT, SIGHUP and SIGTERM. The handler
  itself is modelled; in `Serve` a signal is a per-pass input.
- Interleaving with the bus and device threads. `Serve` does not interleave
  `OnMessage` or `RunNext` with the poll loop; those steps are separate
  methods on the same state.
- Callback registration (lines 157 and 170, on every pass). The source never
  de-duplicates registrations, and the gateway library's registration is not
  part of this model. The model assumes one run of `on_device_updated` per
  device update.
- The snapshot call `on_device_updated(n)` in the loop. It creates a coroutine
  that is never awaited, so it publishes nothing, and `PollLogHasNoState`
  states that the loop log carries no position or closed publish.
- `test.py`, which is not part of this model.
- VeluxBridge.Bridge.Serve: the horizon is bounded. A run that consumes every
  given pass without a signal or failure ends as `StillRunning`.
- Routing.Calls: its own contract bounds only the number of calls. What each
  call is follows from `CallsFromCommands` and `CallsAllValid`.
- VeluxBridge.PassesRun: its own contract bounds only the count. Which passes
  run follows from `PassesRunUpTo` and `PassesRunAll`.
