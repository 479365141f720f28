/**
 * Bus topics: the inbound command topic `prefix/<node>/<action>` and the
 * outbound topics under the response prefix.
 */
module Topics {
  import opened Options
  import opened Text

  datatype TopicError = MalformedTopic

  /**
   * The inbound topic as the bridge reads it: the first occurrence of
   * `prefix + "/"` is removed (wherever it stands), and what is left is split
   * once on "/" into node and action. Without a "/" left there is no action
   * segment and the topic is malformed.
   */
  function ParseCommandTopic(topic: string, prefix: string): (r: Result<(string, string), TopicError>)
    ensures r.Ok? <==> '/' in RemoveFirst(topic, prefix + "/")
    ensures r.Ok? ==> RemoveFirst(topic, prefix + "/") == r.value.0 + "/" + r.value.1
    ensures r.Ok? ==> '/' !in r.value.0
  {
    match SplitOnce(RemoveFirst(topic, prefix + "/"), '/')
    case None => Err(MalformedTopic)
    case Some(parts) => Ok(parts)
  }

  /** The inbound topic a client writes for a node and an action. */
  function CommandTopic(prefix: string, node: string, action: string): string {
    prefix + "/" + node + "/" + action
  }

  /**
   * Parsing inverts building for every node name without "/": the action may
   * itself contain "/" and is kept whole.
   */
  lemma ParseCommandTopicInverse(prefix: string, node: string, action: string)
    requires '/' !in node
    ensures ParseCommandTopic(CommandTopic(prefix, node, action), prefix) == Ok((node, action))
  {
    var rest := node + "/" + action;
    assert CommandTopic(prefix, node, action) == (prefix + "/") + rest;
    RemoveLeading(prefix + "/", rest);
    SplitOnceAt(node, action, '/');
  }

  /** The topic with only a node and no action segment after the prefix is malformed. */
  lemma ParseWithoutAction(prefix: string, node: string)
    requires '/' !in node
    ensures ParseCommandTopic(prefix + "/" + node, prefix) == Err(MalformedTopic)
  {
    RemoveLeading(prefix + "/", node);
  }

  /** The examples `home/bath/closed` and `home/a/b/c` under prefix `home`. */
  lemma ParseExamples()
    ensures ParseCommandTopic("home/bath/closed", "home") == Ok(("bath", "closed"))
    ensures ParseCommandTopic("home/a/b/c", "home") == Ok(("a", "b/c"))
  {
    ParseCommandTopicInverse("home", "bath", "closed");
    ParseCommandTopicInverse("home", "a", "b/c");
    ExampleTopics();
  }

  /** The two example topics, written out. */
  lemma ExampleTopics()
    ensures CommandTopic("home", "bath", "closed") == "home/bath/closed"
    ensures CommandTopic("home", "a", "b/c") == "home/a/b/c"
  {
  }

  /** The node name as a topic path: every "-" becomes a level separator "/". */
  function NodePath(name: string): (r: string)
    ensures |r| == |name| && '-' !in r
    ensures forall i :: 0 <= i < |name| ==> r[i] == (if name[i] == '-' then '/' else name[i])
  {
    ReplaceChar(name, '-', '/')
  }

  /** `<response>/<node path>/<attribute>`, the topic of a published device attribute. */
  function StateTopic(response: string, name: string, attribute: string): string {
    response + "/" + NodePath(name) + "/" + attribute
  }

  /** Different attributes of one device never share a topic. */
  lemma StateTopicAttributesDiffer(response: string, name: string, a: string, b: string)
    requires a != b
    ensures StateTopic(response, name, a) != StateTopic(response, name, b)
  {
    var head := response + "/" + NodePath(name) + "/";
    assert StateTopic(response, name, a) == head + a;
    assert StateTopic(response, name, b) == head + b;
    assert (head + a)[|head|..] == a && (head + b)[|head|..] == b;
  }

  /** A name without "-" is its own path, and each "-" splits the path into one more level. */
  lemma NodePathLevels(a: string, b: string)
    requires '-' !in a
    ensures NodePath(a) == a
    ensures NodePath(a + "-" + b) == a + "/" + NodePath(b)
  {
    var s := a + "-" + b;
    assert forall i :: 0 <= i < |a| ==> s[i] == a[i];
    assert forall i :: 0 <= i < |b| ==> s[|a| + 1 + i] == b[i];
    assert NodePath(s) == a + "/" + NodePath(b);
  }

  /** The example name `living-room` becomes the two-level path `living/room`. */
  lemma NodePathExample()
    ensures NodePath("living-room") == "living/room"
  {
    ExampleNameTexts();
    NodePathLevels("living", "room");
    NodePathLevels("room", "");
  }

  /** The example name, its two levels and its path, written out. */
  lemma ExampleNameTexts()
    ensures "living" + "-" + "room" == "living-room" && "living" + "/" + "room" == "living/room"
    ensures '-' !in "living" && '-' !in "room"
  {
  }

  /** The example `living-room` under response prefix `resp`. */
  lemma StateTopicExample()
    ensures StateTopic("resp", "living-room", "position") == "resp/living/room/position"
  {
    NodePathExample();
    StateTopicExampleText();
  }

  /** The example's topic, written out. */
  lemma StateTopicExampleText()
    ensures "resp" + "/" + "living/room" + "/" + "position" == "resp/living/room/position"
  {
  }

  /** The topic of echoed payloads. */
  function EchoTopic(response: string): string {
    response + "/echo"
  }

  /** The topic of the bridge's lifecycle announcements. */
  function SystemMessageTopic(response: string): string {
    response + "/mqtt-velux/system/message"
  }
}
