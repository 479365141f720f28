/**
 * The bridge process: its state (the node names, the `done` flag, the log of
 * publishes, the queue of commands waiting for the device context and the log
 * of gateway calls) and the steps that change it: an inbound message, running
 * the next queued command, a device update, startup, one poll pass, the
 * signal handler, shutdown, and the main sequence that strings them together.
 */
module VeluxBridge {
  import opened Options
  import opened Text
  import opened Positions
  import opened Topics
  import opened Routing

  /** How the main sequence ends within the passes it is given. */
  datatype Exit =
    | Ended         // a signal stopped the loop and shutdown announced "ended."
    | Crashed       // an exception left the main sequence
    | StillRunning  // the given passes ran out without a signal

  /** What the environment does during one poll pass: limitation replies, and whether a signal arrives. */
  datatype Pass = Pass(replies: map<string, LimitationReply>, signalled: bool)

  /** The "started: " announcement with the comma-joined node names. */
  function StartedMessage(response: string, names: seq<string>, retain: bool): Publish {
    Publish(SystemMessageTopic(response), Str("started: " + Join(names, ", ")), retain)
  }

  /** The "ended." announcement. */
  function EndedMessage(response: string, retain: bool): Publish {
    Publish(SystemMessageTopic(response), Str("ended."), retain)
  }

  /** The names of the discovered devices, in discovery order. */
  function Names(devices: seq<Device>): (r: seq<string>)
    ensures |r| == |devices| && forall i :: 0 <= i < |devices| ==> r[i] == devices[i].name
  {
    seq(|devices|, i requires 0 <= i < |devices| => devices[i].name)
  }

  predicate AllCovered(names: seq<string>, passes: seq<Pass>) {
    forall k :: 0 <= k < |passes| ==> Covers(names, passes[k].replies)
  }

  /** A pass after which the loop goes round again: every query answered and no signal. */
  predicate Continues(names: seq<string>, pass: Pass)
    requires Covers(names, pass.replies)
  {
    PassCompletes(names, pass.replies) && !pass.signalled
  }

  /** How many passes the loop runs: up to and including the first one that fails or is signalled. */
  function PassesRun(names: seq<string>, passes: seq<Pass>): (k: nat)
    requires AllCovered(names, passes)
    ensures k <= |passes|
    ensures k == 0 <==> passes == []
  {
    if passes == [] then 0
    else if !Continues(names, passes[0]) then 1
    else 1 + PassesRun(names, passes[1..])
  }

  /** The publishes of a sequence of poll passes, one pass after another. */
  function PollLog(response: string, names: seq<string>, passes: seq<Pass>, retain: bool): (r: seq<Publish>)
    requires AllCovered(names, passes)
  {
    if passes == [] then []
    else
      PollLog(response, names, passes[..|passes| - 1], retain)
      + RainPublishes(response, names, passes[|passes| - 1].replies, retain)
  }

  /** One more pass adds its rain publishes at the end of the poll log. */
  lemma PollLogSnoc(response: string, names: seq<string>, passes: seq<Pass>, i: nat, retain: bool)
    requires AllCovered(names, passes) && i < |passes|
    ensures AllCovered(names, passes[..i]) && AllCovered(names, passes[..i + 1])
    ensures PollLog(response, names, passes[..i + 1], retain)
         == PollLog(response, names, passes[..i], retain) + RainPublishes(response, names, passes[i].replies, retain)
  {
    assert passes[..i + 1][..i] == passes[..i];
  }

  /** Re-bracketing a concatenation; the poll loop's log step names it so the solver need not search for it. */
  lemma AppendAssoc<T>(a: seq<T>, b: seq<T>, c: seq<T>)
    ensures (a + b) + c == a + (b + c)
  {
  }

  /** How the main sequence ends after startup, by how the last pass it ran went. */
  function ServeExit(names: seq<string>, passes: seq<Pass>): Exit
    requires AllCovered(names, passes)
  {
    var k := PassesRun(names, passes);
    if k == 0 then StillRunning
    else if !PassCompletes(names, passes[k - 1].replies) then Crashed
    else if passes[k - 1].signalled then Ended
    else StillRunning
  }

  /** The passes run are exactly those before the first stopping one, and that one. */
  lemma {:induction false} PassesRunUpTo(names: seq<string>, passes: seq<Pass>, i: nat)
    requires AllCovered(names, passes) && i < |passes|
    requires forall j :: 0 <= j < i ==> Continues(names, passes[j])
    requires !Continues(names, passes[i])
    ensures PassesRun(names, passes) == i + 1
  {
    if i > 0 {
      assert Continues(names, passes[0]);
      assert AllCovered(names, passes[1..]);
      PassesRunUpTo(names, passes[1..], i - 1);
    }
  }

  /** When no pass stops the loop, all of them run. */
  lemma {:induction false} PassesRunAll(names: seq<string>, passes: seq<Pass>)
    requires AllCovered(names, passes)
    requires forall j :: 0 <= j < |passes| ==> Continues(names, passes[j])
    ensures PassesRun(names, passes) == |passes|
  {
    if passes != [] {
      assert AllCovered(names, passes[1..]);
      PassesRunAll(names, passes[1..]);
    }
  }

  /** A poll log never carries a position or closed publish: the unawaited snapshot call of the loop publishes nothing. */
  lemma {:induction false} PollLogHasNoState(response: string, names: seq<string>, passes: seq<Pass>, retain: bool, m: string)
    requires AllCovered(names, passes)
    ensures forall p :: p in PollLog(response, names, passes, retain) ==>
              IsRainOf(response, names, p) &&
              p.topic != StateTopic(response, m, "position") && p.topic != StateTopic(response, m, "closed")
  {
    if passes != [] {
      var front := passes[..|passes| - 1];
      assert AllCovered(names, front);
      PollLogHasNoState(response, names, front, retain, m);
      RainPublishesSpec(response, names, passes[|passes| - 1].replies, retain);
      forall p | p in RainPublishes(response, names, passes[|passes| - 1].replies, retain)
        ensures p.topic != StateTopic(response, m, "position") && p.topic != StateTopic(response, m, "closed")
      {
        var n :| n in names && p.topic == StateTopic(response, n, "rain");
        RainIsNotState(response, n, m);
      }
    }
  }

  class Bridge {
    /** The configured `prefix` of inbound topics. */
    const prefix: string
    /** The configured `response` prefix of outbound topics. */
    const response: string
    /** The retain flag every publish carries. */
    const retain: bool

    /** The names of the gateway's nodes, in gateway order; empty until startup. */
    var nodes: seq<string>
    /** Whether startup ran (the gateway client exists). */
    var started: bool
    /** The flag the signal handler sets and the poll loop tests. */
    var done: bool
    /** Every publish made so far, in order. */
    var published: seq<Publish>
    /** Commands submitted to the device context and not yet run, oldest first. */
    var pending: seq<Command>
    /** Every `set_position` call made so far, in order. */
    var calls: seq<SetPosition>

    /** Only known nodes are ever queued or driven, and there are none before startup. */
    ghost predicate Valid()
      reads this`started, this`nodes, this`pending, this`calls
    {
      && (!started ==> nodes == [])
      && (forall c :: c in pending ==> c.node in nodes)
      && (forall c :: c in calls ==> c.node in nodes)
    }

    /** The gateway calls made so far followed by those the queued commands will make. */
    ghost function Promised(): seq<SetPosition>
      reads this
    {
      calls + Calls(pending)
    }

    constructor (prefix: string, response: string, retainSetting: string)
      ensures Valid()
      ensures this.prefix == prefix && this.response == response && retain == RetainFlag(retainSetting)
      ensures nodes == [] && !started && !done
      ensures published == [] && pending == [] && calls == []
    {
      this.prefix := prefix;
      this.response := response;
      this.retain := RetainFlag(retainSetting);
      nodes := [];
      started := false;
      done := false;
      published := [];
      pending := [];
      calls := [];
    }

    /**
     * The bus client's message callback. It publishes only for `echo`, and
     * queues at most one command, leaving the gateway untouched.
     */
    method OnMessage(topic: string, payload: string)
      requires Valid()
      modifies this`published, this`pending
      ensures Valid()
      ensures var r := RouteMessage(prefix, nodes, topic, payload);
        && published == old(published) + (if r.Echo? then [Publish(EchoTopic(response), Str(payload), retain)] else [])
        && pending == old(pending) + (if r.Submit? then [r.command] else [])
      ensures Promised() == old(Promised()) + Calls(pending[|old(pending)|..])
    {
      var parsed := ParseCommandTopic(topic, prefix);
      if parsed.Err? {
        assert RouteMessage(prefix, nodes, topic, payload) == Reject(Malformed);
        assert pending[|pending|..] == [];
        return;  // no action segment: the index error is caught and logged
      }
      var node, action := parsed.value.0, parsed.value.1;
      if node == "echo" {
        assert RouteMessage(prefix, nodes, topic, payload) == Echo(payload);
        published := published + [Publish(EchoTopic(response), Str(payload), retain)];
        assert pending[|pending|..] == [];
        return;
      }
      var lowered := Lower(payload);
      if node !in nodes {
        assert RouteMessage(prefix, nodes, topic, payload) == Reject(UnknownNode(node));
        assert pending[|pending|..] == [];
        return;  // unknown node: raised, caught and logged
      }
      var cmd := Command(node, CommandPosition(action, lowered));  // the `closed` action rewrites the payload
      assert RouteMessage(prefix, nodes, topic, payload) == Submit(cmd);
      Handoff(cmd);
      assert pending[|old(pending)|..] == [cmd];
    }

    /** The handoff of a command to the device context: it joins the end of the queue. */
    method Handoff(cmd: Command)
      requires Valid() && cmd.node in nodes
      modifies this`pending
      ensures Valid()
      ensures pending == old(pending) + [cmd]
      ensures Promised() == old(Promised()) + Calls([cmd])
    {
      var old_pending := pending;
      pending := pending + [cmd];
      CallsAppend(old_pending, [cmd]);
      AppendAssoc(calls, Calls(old_pending), Calls([cmd]));
    }

    /**
     * The device context runs the oldest queued command: it asks the gateway
     * for the translated percentage, or drops the command if its position
     * does not translate.
     */
    method RunNext() returns (ran: bool)
      requires Valid()
      modifies this`pending, this`calls
      ensures Valid()
      ensures ran <==> old(pending) != []
      ensures ran ==> pending == old(pending)[1..] && calls == old(calls) + CallOf(old(pending)[0])
      ensures !ran ==> pending == old(pending) && calls == old(calls)
      ensures Promised() == old(Promised())
    {
      if pending == [] {
        return false;
      }
      var cmd, rest := pending[0], pending[1..];
      assert cmd in pending && pending == [cmd] + rest;
      CallsAppend([cmd], rest);
      assert Calls([cmd]) == CallOf(cmd) + Calls([]);
      pending := rest;
      var pct := Translate(cmd.position);
      if pct.Some? {
        calls := calls + [SetPosition(cmd.node, pct.value)];
      }  // otherwise the invalid position is logged and the command dropped
      assert calls == old(calls) + CallOf(cmd);
      AppendAssoc(old(calls), CallOf(cmd), Calls(rest));
      return true;
    }

    /** The device update callback: publishes the position and closed state of an opening device. */
    method OnDeviceUpdated(d: Device)
      modifies this`published
      ensures published == old(published) + StatePublishes(response, d, retain)
    {
      if !d.isOpening {
        return;
      }
      if d.position.None? {
        return;  // unknown position: logged only
      }
      var pct := d.position.value;
      published := published + [Publish(StateTopic(response, d.name, "position"), Str(PositionText(pct)), retain)];
      published := published + [Publish(StateTopic(response, d.name, "closed"), Str(ClosedText(pct)), retain)];
    }

    /**
     * Startup, unless a signal came first: collects the node names from the
     * discovered devices and announces them.
     */
    method Startup(discovered: seq<Device>)
      requires Valid() && !started
      modifies this`nodes, this`started, this`published
      ensures Valid()
      ensures done ==> nodes == old(nodes) && !started && published == old(published)
      ensures !done ==> started && nodes == Names(discovered)
      ensures !done ==> published == old(published) + [StartedMessage(response, Names(discovered), retain)]
    {
      if done {
        return;
      }
      var names: seq<string> := [];
      var i := 0;
      while i < |discovered|
        invariant 0 <= i <= |discovered|
        invariant names == Names(discovered[..i])
      {
        names := names + [discovered[i].name];
        i := i + 1;
      }
      assert discovered[..i] == discovered;
      nodes := names;
      started := true;
      published := published + [StartedMessage(response, names, retain)];
    }

    /**
     * One pass of the poll loop: per node, in order, the limitation query and
     * its rain publish. A failing query raises out of the pass. The snapshot
     * call to the device update callback is never awaited and publishes nothing.
     */
    method PollPass(replies: map<string, LimitationReply>) returns (completed: bool)
      requires Covers(nodes, replies)
      modifies this`published
      ensures completed <==> PassCompletes(nodes, replies)
      ensures published == old(published) + RainPublishes(response, nodes, replies, retain)
    {
      var i := 0;
      while i < |nodes|
        invariant 0 <= i <= |nodes|
        invariant forall j :: 0 <= j < i ==> replies[nodes[j]].Replied?
        invariant |published| == |old(published)| + i
        invariant published[..|old(published)|] == old(published)
        invariant forall j :: 0 <= j < i ==>
                    published[|old(published)| + j] == RainPublish(response, nodes[j], replies[nodes[j]].minValue, retain)
      {
        var reply := replies[nodes[i]];
        if reply.GatewayFailed? {
          assert FirstFailure(nodes, replies) == i;
          assert published == old(published) + RainPublishes(response, nodes, replies, retain);
          assert nodes[i] in nodes;
          return false;
        }
        published := published + [RainPublish(response, nodes[i], reply.minValue, retain)];
        i := i + 1;
      }
      assert FirstFailure(nodes, replies) == |nodes|;
      assert published == old(published) + RainPublishes(response, nodes, replies, retain);
      assert PassCompletes(nodes, replies) by {
        forall n | n in nodes ensures replies[n].Replied? {
          var j :| 0 <= j < |nodes| && nodes[j] == n;
        }
      }
      return true;
    }

    /** The signal handler: it only ever sets `done`. */
    method SignalHandler()
      modifies this`done
      ensures done
    {
      done := true;
    }

    /**
     * Shutdown after the loop: announces "ended.". Without startup the gateway
     * client was never created, its disconnect raises, and nothing is announced.
     */
    method Shutdown() returns (ok: bool)
      modifies this`published
      ensures ok == started
      ensures published == old(published) + (if started then [EndedMessage(response, retain)] else [])
    {
      if !started {
        return false;
      }
      published := published + [EndedMessage(response, retain)];
      return true;
    }

    /** Pass `i` of the poll loop: its rain publishes extend the poll log of the passes before it. */
    method LoopPass(passes: seq<Pass>, i: nat, ghost start: seq<Publish>) returns (completed: bool)
      requires AllCovered(nodes, passes) && i < |passes|
      requires published == start + PollLog(response, nodes, passes[..i], retain)
      modifies this`published
      ensures completed <==> PassCompletes(nodes, passes[i].replies)
      ensures published == start + PollLog(response, nodes, passes[..i + 1], retain)
    {
      ghost var before := published;
      completed := PollPass(passes[i].replies);
      PollLogSnoc(response, nodes, passes, i, retain);
      ghost var log := PollLog(response, nodes, passes[..i], retain);
      ghost var rain := RainPublishes(response, nodes, passes[i].replies, retain);
      assert published == before + rain;
      AppendAssoc(start, log, rain);
    }

    /**
     * The poll loop: passes while `done` is unset, tested only before each
     * pass, so a signal during a pass lets that pass finish. A failing
     * limitation query raises out of the loop.
     */
    method PollLoop(passes: seq<Pass>) returns (crashed: bool)
      requires AllCovered(nodes, passes)
      modifies this`published, this`done
      ensures old(done) ==> !crashed && done && published == old(published)
      ensures !old(done) ==>
        var k := PassesRun(nodes, passes);
        && published == old(published) + PollLog(response, nodes, passes[..k], retain)
        && crashed == (k > 0 && !PassCompletes(nodes, passes[k - 1].replies))
        && (!crashed ==> (done <==> k > 0 && passes[k - 1].signalled))
    {
      var i := 0;
      assert passes[..0] == [];
      while !done && i < |passes|
        invariant 0 <= i <= |passes|
        invariant old(done) ==> i == 0 && done
        invariant published == old(published) + PollLog(response, nodes, passes[..i], retain)
        invariant forall j :: 0 <= j < i - 1 ==> Continues(nodes, passes[j])
        invariant i > 0 ==> PassCompletes(nodes, passes[i - 1].replies)
        invariant !old(done) ==> (done <==> i > 0 && passes[i - 1].signalled)
      {
        var completed := LoopPass(passes, i, old(published));
        if !completed {
          PassesRunUpTo(nodes, passes, i);
          return true;
        }
        if passes[i].signalled {
          SignalHandler();
        }
        i := i + 1;
      }
      if !old(done) {
        if done {
          PassesRunUpTo(nodes, passes, i - 1);
        } else {
          PassesRunAll(nodes, passes);
        }
      }
      return false;
    }

    /**
     * The main sequence: startup unless a signal came first, the poll loop,
     * then shutdown once `done` is set. A signal can also arrive while
     * startup runs (`signalledAtStartup`): the announcement still goes out,
     * the loop head then sees `done` and runs no pass, and "ended." follows.
     */
    method Serve(discovered: seq<Device>, signalledAtStartup: bool, passes: seq<Pass>) returns (exit: Exit)
      requires Valid() && !started
      requires AllCovered(Names(discovered), passes)
      modifies this`nodes, this`started, this`published, this`done
      ensures Valid()
      ensures old(done) ==> exit == Crashed && published == old(published) && nodes == old(nodes)
      ensures !old(done) ==> started && nodes == Names(discovered)
      ensures !old(done) && signalledAtStartup ==>
        exit == Ended
        && published == old(published) + [StartedMessage(response, nodes, retain), EndedMessage(response, retain)]
      ensures !old(done) && !signalledAtStartup ==> exit == ServeExit(nodes, passes)
      ensures !old(done) && !signalledAtStartup ==>
        published == old(published) + [StartedMessage(response, nodes, retain)]
                   + PollLog(response, nodes, passes[..PassesRun(nodes, passes)], retain)
                   + (if exit == Ended then [EndedMessage(response, retain)] else [])
      ensures exit == Ended ==> done
      ensures old(done) ==> done && !started
    {
      Startup(discovered);
      if old(done) {
        assert nodes == [] && AllCovered(nodes, passes);
      }
      if signalledAtStartup {
        SignalHandler();
      }
      var crashed := PollLoop(passes);
      if crashed {
        return Crashed;
      }
      if !done {
        return StillRunning;
      }
      var ok := Shutdown();
      exit := if ok then Ended else Crashed;
    }
  }
}
