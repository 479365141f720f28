/**
 * A run of the bridge from start to finish, proved from the contracts of the
 * bridge's steps.
 */
module Scenarios {
  import opened Options
  import opened Text
  import opened Positions
  import opened Topics
  import opened Routing
  import opened VeluxBridge

  /** "30" is the bus percentage of device percentage 70, both ways. */
  lemma ThirtyFacts()
    ensures Lower("30") == "30"
    ensures Translate("30") == Some(70)
    ensures PositionText(70) == "30"
  {
    var thirty := "30";
    assert IsDigits(thirty) && Canonical(thirty);
    assert thirty[..1] == "3";
    assert DigitsValue(thirty) == 30;
    NatToStringOfCanonical(thirty);
    assert Lower(thirty) == [LowerChar('3')] + Lower("0");
  }

  /** The configured retain option "no" is not in the truthy list. */
  lemma NotRetained()
    ensures !RetainFlag("no")
  {
    var no := "no";
    assert no[0] == 'n';
    assert forall t :: t in TRUTHY ==> t[0] != 'n';
  }

  /** The topics of node `kitchen` under response prefix `resp`. */
  lemma KitchenTopics()
    ensures StateTopic("resp", "kitchen", "position") == "resp/kitchen/position"
    ensures StateTopic("resp", "kitchen", "closed") == "resp/kitchen/closed"
  {
    NodePathLevels("kitchen", "");
    KitchenTopicTexts();
  }

  /** The kitchen topics, written out. */
  lemma KitchenTopicTexts()
    ensures "resp" + "/" + "kitchen" + "/" + "position" == "resp/kitchen/position"
    ensures "resp" + "/" + "kitchen" + "/" + "closed" == "resp/kitchen/closed"
  {
  }

  /** What node `kitchen` publishes once it reports device percentage 70. */
  lemma KitchenReport()
    ensures StatePublishes("resp", Device("kitchen", true, Some(70)), false) ==
              [Publish("resp/kitchen/position", Str("30"), false),
               Publish("resp/kitchen/closed", Str("False"), false)]
  {
    ThirtyFacts();
    KitchenTopics();
  }

  /** The message `home/kitchen/set` with "30" queues one command, which asks the gateway for 70. */
  lemma KitchenCommand()
    ensures RouteMessage("home", ["kitchen"], CommandTopic("home", "kitchen", "set"), "30")
         == Submit(Command("kitchen", "30"))
    ensures CallOf(Command("kitchen", "30")) == [SetPosition("kitchen", 70)]
  {
    ThirtyFacts();
    RouteKnown("home", ["kitchen"], "kitchen", "set", "30");
  }

  /** A bridge for prefix `home` and response `resp`, started with the single node `kitchen`. */
  method KitchenBridge() returns (b: Bridge)
    ensures fresh(b) && b.Valid()
    ensures b.prefix == "home" && b.response == "resp" && !b.retain
    ensures b.nodes == ["kitchen"] && |b.published| == 1 && b.pending == [] && b.calls == []
  {
    NotRetained();
    b := new Bridge("home", "resp", "no");
    b.Startup([Device("kitchen", true, Some(50))]);
  }

  /** The started kitchen bridge after `home/kitchen/set` with "30" and the device context's run of it. */
  method KitchenCommandRun() returns (b: Bridge)
    ensures fresh(b) && b.Valid()
    ensures b.response == "resp" && !b.retain
    ensures |b.published| == 1 && b.pending == [] && b.calls == [SetPosition("kitchen", 70)]
  {
    b := KitchenBridge();
    KitchenCommand();
    b.OnMessage(CommandTopic("home", "kitchen", "set"), "30");
    assert b.pending == [Command("kitchen", "30")];
    var ran := b.RunNext();
  }

  /**
   * Node `kitchen` at device percentage 50 receives `home/kitchen/set` with
   * payload "30": the device context asks for 70, and once the device reports
   * 70 the bridge publishes position "30" and closed "False".
   */
  method KitchenScenario() returns (log: seq<Publish>, gateway: seq<SetPosition>)
    ensures gateway == [SetPosition("kitchen", 70)]
    ensures |log| == 3
    ensures log[1] == Publish("resp/kitchen/position", Str("30"), false)
    ensures log[2] == Publish("resp/kitchen/closed", Str("False"), false)
  {
    var b := KitchenCommandRun();
    KitchenReport();
    b.OnDeviceUpdated(Device("kitchen", true, Some(70)));
    log, gateway := b.published, b.calls;
  }
}
