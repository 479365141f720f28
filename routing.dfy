/**
 * What the bridge does with one inbound message, one queued command and one
 * device update, as values: the route of a message, the gateway calls made
 * by a queue of commands, and the publishes caused by a device update or a
 * poll pass.
 */
module Routing {
  import opened Options
  import opened Text
  import opened Positions
  import opened Topics

  /** A publish payload: a text, or the limitation's minimum value as the gateway reports it. */
  datatype Payload = Str(text: string) | MinValue(value: int)

  /** One call of the bus client's publish. */
  datatype Publish = Publish(topic: string, payload: Payload, retain: bool)

  /** A unit of work handed to the device context: drive `node` to the command string `position`. */
  datatype Command = Command(node: string, position: string)

  /** One `set_position` call on the gateway, with the device percentage asked for. */
  datatype SetPosition = SetPosition(node: string, percent: int)

  /** What a device update shows: its name, whether it is an opening device, its percentage if known. */
  datatype Device = Device(name: string, isOpening: bool, position: Option<int>)

  /** The gateway's answer to a limitation query. */
  datatype LimitationReply = Replied(minValue: int) | GatewayFailed

  /** Why an inbound message is dropped. */
  datatype Rejection = Malformed | UnknownNode(node: string)

  /** What an inbound message leads to. */
  datatype Route = Echo(text: string) | Submit(command: Command) | Reject(reason: Rejection)

  // ---------------------------------------------------------------------
  // Inbound messages

  /**
   * The command string submitted for a payload already lower-cased, on a
   * given action: on `closed` a digit string that always translates, to 100
   * for a truthy payload and to 0 otherwise; on any other action the payload
   * itself.
   */
  function CommandPosition(action: string, lowered: string): (r: string)
    ensures action == "closed" ==> Canonical(r) && Translate(r) == Some(if IsTruthy(lowered) then 100 else 0)
    ensures action != "closed" ==> r == lowered
  {
    ClosedActionTranslation(lowered);
    if action == "closed" then ClosedRewrite(lowered) else lowered
  }

  /**
   * The route of an inbound message: a malformed topic is dropped; node
   * `echo` echoes the payload as received; an unknown node is dropped;
   * a known node gets one command with the lower-cased payload, rewritten on
   * the `closed` action.
   */
  function RouteMessage(prefix: string, nodes: seq<string>, topic: string, payload: string): (r: Route)
    ensures r.Echo? ==> r.text == payload
    ensures r.Submit? ==> r.command.node in nodes && r.command.node != "echo" && '/' !in r.command.node
    ensures r == Reject(Malformed) <==> ParseCommandTopic(topic, prefix).Err?
  {
    match ParseCommandTopic(topic, prefix)
    case Err(_) => Reject(Malformed)
    case Ok((node, action)) =>
      if node == "echo" then Echo(payload)
      else if node !in nodes then Reject(UnknownNode(node))
      else Submit(Command(node, CommandPosition(action, Lower(payload))))
  }

  /** `prefix/echo/<anything>` echoes the payload verbatim, whatever the node set holds. */
  lemma RouteEcho(prefix: string, nodes: seq<string>, action: string, payload: string)
    ensures RouteMessage(prefix, nodes, CommandTopic(prefix, "echo", action), payload) == Echo(payload)
  {
    ParseCommandTopicInverse(prefix, "echo", action);
  }

  /** `prefix/echo` alone has no action segment and is dropped before the echo test. */
  lemma RouteEchoWithoutAction(prefix: string, nodes: seq<string>, payload: string)
    ensures RouteMessage(prefix, nodes, prefix + "/echo", payload) == Reject(Malformed)
  {
    ParseWithoutAction(prefix, "echo");
  }

  /** A node outside the node set is dropped. */
  lemma RouteUnknown(prefix: string, nodes: seq<string>, node: string, action: string, payload: string)
    requires '/' !in node && node != "echo" && node !in nodes
    ensures RouteMessage(prefix, nodes, CommandTopic(prefix, node, action), payload) == Reject(UnknownNode(node))
  {
    ParseCommandTopicInverse(prefix, node, action);
  }

  /** A known node gets exactly one command carrying the lower-cased (or rewritten) payload. */
  lemma RouteKnown(prefix: string, nodes: seq<string>, node: string, action: string, payload: string)
    requires '/' !in node && node != "echo" && node in nodes
    ensures RouteMessage(prefix, nodes, CommandTopic(prefix, node, action), payload)
         == Submit(Command(node, CommandPosition(action, Lower(payload))))
  {
    ParseCommandTopicInverse(prefix, node, action);
  }

  /**
   * A command from the `closed` action always translates: a payload that is
   * truthy in any letter case asks for device percentage 100, any other for 0.
   */
  lemma RouteClosedAction(prefix: string, nodes: seq<string>, node: string, payload: string)
    requires '/' !in node && node != "echo" && node in nodes
    ensures var r := RouteMessage(prefix, nodes, CommandTopic(prefix, node, "closed"), payload);
      r.Submit? && Translate(r.command.position) == Some(if IsTruthy(Lower(payload)) then 100 else 0)
  {
    RouteKnown(prefix, nodes, node, "closed", payload);
    ClosedActionTranslation(Lower(payload));
  }

  // ---------------------------------------------------------------------
  // Running queued commands

  /** The `set_position` call a command makes when it runs, if its position is valid. */
  function CallOf(cmd: Command): (r: seq<SetPosition>)
    ensures |r| <= 1
  {
    match Translate(cmd.position)
    case None => []
    case Some(pct) => [SetPosition(cmd.node, pct)]
  }

  /**
   * A command makes a call exactly when its position is a command word or a
   * digit string, on its own node: 100 for open, 0 for close and closed,
   * `100 - int(d)` for digits `d`.
   */
  lemma CallOfSpec(cmd: Command)
    ensures var r := CallOf(cmd);
      && (|r| == 1 <==> cmd.position == "open" || cmd.position == "close" || cmd.position == "closed" || IsDigits(cmd.position))
      && (|r| == 1 ==> r[0].node == cmd.node)
      && (cmd.position == "open" ==> r == [SetPosition(cmd.node, 100)])
      && (cmd.position == "close" || cmd.position == "closed" ==> r == [SetPosition(cmd.node, 0)])
      && (IsDigits(cmd.position) ==> r == [SetPosition(cmd.node, 100 - DigitsValue(cmd.position))])
  {
  }

  /** The gateway calls made by running `cmds` one after another, in order. */
  function Calls(cmds: seq<Command>): (r: seq<SetPosition>)
    ensures |r| <= |cmds|
  {
    if cmds == [] then [] else CallOf(cmds[0]) + Calls(cmds[1..])
  }

  /** Running two batches one after the other makes the calls of both, first batch first. */
  lemma {:induction false} CallsAppend(a: seq<Command>, b: seq<Command>)
    ensures Calls(a + b) == Calls(a) + Calls(b)
  {
    if a == [] {
      assert a + b == b;
    } else {
      assert (a + b)[0] == a[0] && (a + b)[1..] == a[1..] + b;
      CallsAppend(a[1..], b);
    }
  }

  /** Each call is made for some queued command, on its node, with its translated percentage. */
  lemma {:induction false} CallsFromCommands(cmds: seq<Command>)
    ensures forall call :: call in Calls(cmds) ==>
              exists cmd :: cmd in cmds && cmd.node == call.node && Translate(cmd.position) == Some(call.percent)
  {
    if cmds != [] {
      CallsFromCommands(cmds[1..]);
      forall call | call in Calls(cmds)
        ensures exists cmd :: cmd in cmds && cmd.node == call.node && Translate(cmd.position) == Some(call.percent)
      {
        if call in CallOf(cmds[0]) {
          assert cmds[0] in cmds;
        } else {
          var cmd :| cmd in cmds[1..] && cmd.node == call.node && Translate(cmd.position) == Some(call.percent);
          assert cmd in cmds;
        }
      }
    }
  }

  /** Every queued command with a valid position makes its call; nothing is lost or duplicated. */
  lemma {:induction false} CallsAllValid(cmds: seq<Command>)
    requires forall i :: 0 <= i < |cmds| ==> Translate(cmds[i].position).Some?
    ensures |Calls(cmds)| == |cmds|
    ensures forall i :: 0 <= i < |cmds| ==>
              Calls(cmds)[i] == SetPosition(cmds[i].node, Translate(cmds[i].position).value)
  {
    if cmds != [] {
      CallsAllValid(cmds[1..]);
    }
  }

  // ---------------------------------------------------------------------
  // Device updates

  /**
   * The publishes of one device update: none for a device that is not an
   * opening device or whose position is unknown; otherwise the bus
   * percentage on `position`, then `True`/`False` on `closed`.
   */
  function StatePublishes(response: string, d: Device, retain: bool): (r: seq<Publish>)
    ensures |r| == 0 || |r| == 2
    ensures |r| == 2 <==> d.isOpening && d.position.Some?
    ensures |r| == 2 ==>
              r[0].topic == StateTopic(response, d.name, "position") &&
              r[1].topic == StateTopic(response, d.name, "closed")
    ensures forall p :: p in r ==> p.retain == retain && p.payload.Str?
    ensures |r| == 2 ==>
              r[0].payload == Str(IntToString(100 - d.position.value)) &&
              r[1].payload == Str(if d.position.value == 0 then "True" else "False")
  {
    if !d.isOpening || d.position.None? then []
    else
      var pct := d.position.value;
      [Publish(StateTopic(response, d.name, "position"), Str(PositionText(pct)), retain),
       Publish(StateTopic(response, d.name, "closed"), Str(ClosedText(pct)), retain)]
  }

  /**
   * A device that reached the percentage a digit string asked for reports
   * the value of that string back on its position topic, and reports closed
   * exactly when that value is 100.
   */
  lemma ReportAfterCommand(response: string, name: string, d: string, retain: bool)
    requires IsDigits(d)
    ensures var r := StatePublishes(response, Device(name, true, Translate(d)), retain);
      |r| == 2
      && r[0].payload == Str(NatToString(DigitsValue(d)))
      && (r[1].payload == Str("True") <==> DigitsValue(d) == 100)
  {
    TranslateThenPublish(d);
    ClosedAgreesWithPosition(Translate(d).value);
  }

  // ---------------------------------------------------------------------
  // Poll passes

  /** Every node of the pass has a limitation reply. */
  predicate Covers(names: seq<string>, replies: map<string, LimitationReply>) {
    forall n :: n in names ==> n in replies
  }

  /** The limitation query succeeded for every node. */
  predicate PassCompletes(names: seq<string>, replies: map<string, LimitationReply>)
    requires Covers(names, replies)
  {
    forall n :: n in names ==> replies[n].Replied?
  }

  /** The index of the first node whose limitation query fails, or the number of nodes. */
  function FirstFailure(names: seq<string>, replies: map<string, LimitationReply>): (k: nat)
    requires Covers(names, replies)
    ensures k <= |names|
    ensures forall j :: 0 <= j < k ==> replies[names[j]].Replied?
    ensures k < |names| ==> replies[names[k]].GatewayFailed?
  {
    if names == [] then 0
    else if replies[names[0]].GatewayFailed? then 0
    else 1 + FirstFailure(names[1..], replies)
  }

  /** The topic and payload of one node's rain publish. */
  function RainPublish(response: string, name: string, minValue: int, retain: bool): Publish {
    Publish(StateTopic(response, name, "rain"), MinValue(minValue), retain)
  }

  /** Whether `p` is the rain publish of some node in `names`. */
  ghost predicate IsRainOf(response: string, names: seq<string>, p: Publish) {
    exists n :: n in names && p.topic == StateTopic(response, n, "rain")
  }

  /**
   * The publishes of one poll pass: one rain publish per node, in node order,
   * up to the first node whose limitation query fails.
   */
  function RainPublishes(response: string, names: seq<string>, replies: map<string, LimitationReply>, retain: bool)
    : seq<Publish>
    requires Covers(names, replies)
  {
    var k := FirstFailure(names, replies);
    seq(k, j requires 0 <= j < k => RainPublish(response, names[j], replies[names[j]].minValue, retain))
  }

  /**
   * A pass publishes for every node exactly when every query succeeds; each
   * publish is the node's rain publish with its minimum value, in node order.
   */
  lemma RainPublishesSpec(response: string, names: seq<string>, replies: map<string, LimitationReply>, retain: bool)
    requires Covers(names, replies)
    ensures var r := RainPublishes(response, names, replies, retain);
      && |r| <= |names|
      && (|r| == |names| <==> PassCompletes(names, replies))
      && (forall j :: 0 <= j < |r| ==>
            replies[names[j]].Replied? && r[j] == RainPublish(response, names[j], replies[names[j]].minValue, retain))
      && (forall p :: p in r ==> IsRainOf(response, names, p))
  {
    var r := RainPublishes(response, names, replies, retain);
    var k := FirstFailure(names, replies);
    forall p | p in r ensures IsRainOf(response, names, p) {
      var j :| 0 <= j < k && r[j] == p;
      assert names[j] in names;
    }
    if k < |names| {
      assert names[k] in names;
    }
  }

  /** Where an attribute topic ends: with "/" and the attribute. */
  lemma StateTopicSuffix(response: string, name: string, attribute: string)
    ensures var t := StateTopic(response, name, attribute);
      |t| > |attribute| && t[|t| - |attribute| - 1..] == "/" + attribute
  {
  }

  /** A rain topic is never the position or closed topic of any node. */
  lemma RainIsNotState(response: string, n: string, m: string)
    ensures StateTopic(response, n, "rain") != StateTopic(response, m, "position")
    ensures StateTopic(response, n, "rain") != StateTopic(response, m, "closed")
  {
    var rain := StateTopic(response, n, "rain");
    var position := StateTopic(response, m, "position");
    var closed := StateTopic(response, m, "closed");
    StateTopicSuffix(response, n, "rain");
    StateTopicSuffix(response, m, "position");
    StateTopicSuffix(response, m, "closed");
    assert rain[|rain| - 4] == 'r';
    assert position[|position| - 4] == 't';
    assert closed[|closed| - 4] == 'o';
  }
}
