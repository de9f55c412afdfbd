/** Whole runs on one small server: a first adoption leaves its mark, a bystander's pane is lost, a batch is
    rolled back twice, and a pane that is handed from one agent to another gets two owners. */
module HandOver {
  import opened Options
  import opened Tmux
  import opened Adoption
  import opened AdoptionLaws
  import opened AdoptionRuns
  import opened AdoptionReturns

  const SHELL: Process := Process(1, None, "/", {})

  /** Panes %1 and %9 share a window of a session, %0 is alone in another session. */
  function Panes(): Server {
    Server(map["@1" := Window("work", "w", ["%1", "%9"]), "@2" := Window("agents", "b", ["%0"])],
           map["%1" := SHELL, "%9" := SHELL, "%0" := SHELL])
  }

  function AgentOf(codexSession: string, pane: string): Agent {
    Agent(true, map[CodexSession := Some(codexSession), TmuxPaneId := Some(pane)])
  }

  /** Agent `a` owns %0 on record; agent `b` owns nothing. */
  function Records(): Store {
    Store(map["a" := AgentOf("s", "%1"), "b" := AgentOf("u", "%0")],
          map["a" := Mapping("%0", 1, None, "agents", "@2", Some("s"), None, None)], map[])
  }

  function Start(): World { World(Panes(), Records()) }

  function ForA(): Request { Into("agents") }

  function Into(destination: string): Request { Request("a", "%1", destination, "a", "") }

  function ForB(): Request { Request("b", "%0", "agents", "b", "") }

  function NewIds(): Env { Env("@7", "%7", SHELL, "@3", "noon", [], [], [], {}) }

  predicate Differ(p: string, q: string) { |p| == |q| == 2 && p[1] != q[1] }

  lemma NamesDiffer()
    ensures "@1" != "@2" && "%1" != "%9" && "%1" != "%0" && "%9" != "%0"
    ensures "@3" != "@1" && "@3" != "@2" && "@7" != "@1" && "@7" != "@2" && "@7" != "@3"
    ensures "%7" != "%1" && "%7" != "%9" && "%7" != "%0" && "%8" != "%1" && "%8" != "%9" && "%8" != "%0"
    ensures "@8" !in {"@1", "@2", "@3", "@7"} && "@9" !in {"@1", "@2", "@3", "@7", "@8"}
    ensures "a" != "b" && "s" != "u" && "work" != "agents"
  {
    assert Differ("@1", "@2") && Differ("%1", "%9") && Differ("%1", "%0") && Differ("%9", "%0");
    assert Differ("@3", "@1") && Differ("@3", "@2") && Differ("@7", "@1") && Differ("@7", "@2") && Differ("@7", "@3");
    assert Differ("%7", "%1") && Differ("%7", "%9") && Differ("%7", "%0");
    assert Differ("%8", "%1") && Differ("%8", "%9") && Differ("%8", "%0") && Differ("@9", "@8");
    assert Differ("@8", "@1") && Differ("@8", "@2") && Differ("@8", "@3") && Differ("@8", "@7");
    assert Differ("@9", "@1") && Differ("@9", "@2") && Differ("@9", "@3") && Differ("@9", "@7");
    assert "a"[0] != "b"[0] && "s"[0] != "u"[0];
  }

  predicate At(w: string, q: string) { if q == "%0" then w == "@2" else w == "@1" && q in {"%1", "%9"} }

  lemma WhoIsWhere()
    ensures forall w, q :: Holds(Panes(), w, q) <==> At(w, q)
    ensures HasSession(Panes(), "agents") && FreshIds(Panes(), NewIds())
    ensures forall w :: w in Panes().windows ==> Panes().windows[w].panes != [] && NoRepeats(Panes().windows[w].panes)
    ensures Panes().panes.Keys == {"%0", "%1", "%9"}
  {
    NamesDiffer();
    var t := Panes();
    assert ["%1", "%9"][0] == "%1" && ["%1", "%9"][1] == "%9" && ["%0"][0] == "%0";
    assert t.windows["@2"].session == "agents";
  }

  lemma PanesAreValid()
    ensures Valid(Panes()) && forall w, q :: Holds(Panes(), w, q) <==> At(w, q)
    ensures HasSession(Panes(), "agents") && FreshIds(Panes(), NewIds())
  {
    hide Panes, Holds, HasSession, FreshIds, NoRepeats;
    WhoIsWhere();
    forall q | q in Panes().panes
      ensures exists w :: Holds(Panes(), w, q)
    {
      assert Holds(Panes(), if q == "%0" then "@2" else "@1", q);
    }
  }

  lemma StartIsInOrder()
    ensures InOrder(Start()) && UniqueOwners(Records())
  {
    hide Valid;
    PanesAreValid();
  }

  lemma AgentSays(codexSession: string, pane: string)
    requires codexSession != ""
    ensures var agent := AgentOf(codexSession, pane);
      && agent.caller && CodexSessionOf(agent) == codexSession && AliasOf(agent) == ""
      && TextAt(agent.metadata, TmuxPaneId) == pane
  {
  }

  /** The adoption of %1 by `a` into any other session is allowed. */
  lemma PlanInto(destination: string)
    requires destination != "" && destination != "work"
    ensures Valid(Panes())
    ensures var plan := BuildPlan(Panes(), Records(), Into(destination));
      && Allowed(plan) && !plan.value.alreadyAdopted && plan.value.agentId == "a" && plan.value.pane == "%1"
      && plan.value.codexSession == "s" && plan.value.mapping == Some(Records().mappings["a"])
      && plan.value.destination == destination && plan.value.windowName == "a"
      && plan.value.agent == AgentOf("s", "%1") && plan.value.agentId in Records().agents
  {
    hide Valid, Holds, AgentOf, CodexSessionOf, AliasOf, TextAt;
    NamesDiffer();
    PanesAreValid();
    AgentSays("s", "%1");
    AgentSays("u", "%0");
    var t := Panes();
    assert Holds(t, WindowOf(t, "%1"), "%1");
    assert WindowOf(t, "%1") == "@1";
    assert Without(["%1", "%9"], "%1") == ["%9"] by {
      assert ["%1", "%9"][1..] == ["%9"] && ["%9"][1..] == [];
    }
  }

  lemma FirstPlan()
    ensures Valid(Panes()) && InOrder(Start()) && UniqueOwners(Records())
    ensures var plan := BuildPlan(Panes(), Records(), ForA());
      && Allowed(plan) && !plan.value.alreadyAdopted && plan.value.agentId == "a" && plan.value.pane == "%1"
      && plan.value.codexSession == "s" && plan.value.mapping == Some(Records().mappings["a"])
      && plan.value.destination == "agents" && plan.value.agentId in Records().agents
  {
    hide Valid, PlansOk, BuildPlan, UniqueOwners;
    NamesDiffer();
    StartIsInOrder();
    PlanInto("agents");
  }

  function Handed(): World
  {
    FirstPlan();
    AfterAdoption(Start(), ForA(), "x", 10, NewIds())
  }

  lemma IdsAreCalm()
    ensures Calm(NewIds()) && NewIds().adoptedAt == "noon"
  {
  }

  lemma FirstAdoption()
    ensures InOrder(Start()) && InOrder(Handed())
    ensures var plan := BuildPlan(Panes(), Records(), ForA());
      && Allowed(plan) && BrokenOut(Panes(), Handed().tmux, plan.value, NewIds())
      && Handed().tmux.panes == Panes().panes
      && plan.value.agentId in Records().agents
      && Leaves(Recorded(Records(), "x", plan.value, 10), "x", plan.value, "noon", Handed().store)
  {
    hide Valid, PlansOk, BuildPlan, BrokenOut, Leaves, HasSession, FreshIds, Panes, Records, NewIds, Calm, ForA,
         Revocable, Snapshots, PlacementOf, Next, Holds;
    FirstPlan();
    PanesAreValid();
    IdsAreCalm();
    AdoptionLeaves(Start(), ForA(), "x", 10, NewIds(), 0);
  }

  /** The records after the adoption of %1: nobody owns %0 any more. */
  lemma RecordsAfter()
    ensures InOrder(Handed())
    ensures var store := Handed().store;
      && store.agents.Keys == {"a", "b"} && store.agents["b"] == AgentOf("u", "%0")
      && CodexSessionOf(store.agents["a"]) == "s" && AliasOf(store.agents["a"]) == ""
      && store.mappings.Keys == {"a"} && store.mappings["a"].pane == "%1"
      && store.mappings["a"].codexSession == Some("s")
  {
    hide Valid, PlansOk, BuildPlan, BrokenOut, Handed, Adopted, AdoptedKeys, CodexSessionOf, AliasOf, AgentOf;
    FirstAdoption();
    FirstPlan();
    NamesDiffer();
    var plan := BuildPlan(Panes(), Records(), ForA()).value;
    var previewed := Recorded(Records(), "x", plan, 10);
    var d: Placement :| d.pane == plan.pane && Handed().store == Adopted(previewed, "x", plan, d, "noon");
    AdoptedParts(previewed, "x", plan, d, "noon");
    SameElsewhere(previewed.agents, Handed().store.agents, "a", "b");
    KeysAre(previewed.agents, Handed().store.agents);
    SaysStill("s", "%1", d, "noon");
    UpsertedIs(previewed, plan, d);
  }

  lemma KeysAre(before: map<string, Agent>, after: map<string, Agent>)
    requires before.Keys == {"a", "b"} && SameButFor(before, after, "a") && "a" in after
    ensures after.Keys == {"a", "b"}
  {
    NamesDiffer();
    assert after.Keys - {"a"} == (after - {"a"}).Keys == (before - {"a"}).Keys == {"b"};
    assert after.Keys == (after.Keys - {"a"}) + {"a"};
  }

  lemma SaysStill(codexSession: string, pane: string, d: Placement, at: string)
    requires codexSession != ""
    ensures var agent := Agent(true, AgentOf(codexSession, pane).metadata + AdoptedKeys(d, at));
      CodexSessionOf(agent) == codexSession && AliasOf(agent) == ""
  {
  }

  lemma UpsertedIs(store: Store, plan: Plan, d: Placement)
    requires store.mappings.Keys == {"a"} && plan.agentId == "a" && d.pane == "%1" && plan.codexSession == "s"
    ensures var after := Upserted(store, "a", NewMapping(plan, d)).mappings;
      && after.Keys == {"a"} && after["a"].pane == "%1" && after["a"].codexSession == Some("s")
  {
  }

  /** %0 is still alone in its window. */
  lemma PaneAfter()
    ensures InOrder(Handed())
    ensures var t := Handed().tmux;
      && t.panes == Panes().panes && PlacementOf(t, "%0").session == "agents" && PlacementOf(t, "%0").siblings == []
      && PlacementOf(t, "%0").process == SHELL
  {
    hide Valid, PlansOk, BuildPlan, Handed, HasSession, FreshIds, Records, Panes, Leaves, Allowed;
    FirstAdoption();
    FirstPlan();
    NamesDiffer();
    PanesAreValid();
    LonePane();
    var t := Handed().tmux;
    assert Holds(t, "@2", "%0");
    ValidHolds(t, "@2", "%0");
    WindowIsTidy(t, "@2");
    OnlyPane(t, "@2", "%0");
  }

  lemma LonePane()
    ensures var t := Panes();
      && "%0" in t.panes && t.panes["%0"] == SHELL && "@2" in t.windows && t.windows["@2"].session == "agents"
  {
  }

  lemma WindowIsTidy(t: Server, w: string)
    requires Valid(t) && w in t.windows
    ensures NoRepeats(t.windows[w].panes) && forall q :: Holds(t, w, q) ==> q in t.panes
  {
  }

  lemma OnlyPane(t: Server, w: string, p: string)
    requires w in t.windows && NoRepeats(t.windows[w].panes) && forall q :: Holds(t, w, q) <==> q == p
    ensures Without(t.windows[w].panes, p) == []
  {
    var panes := t.windows[w].panes;
    if Without(panes, p) != [] {
      WithoutMembers(panes, p, Without(panes, p)[0]);
      assert Holds(t, w, Without(panes, p)[0]);
    }
  }

  lemma SecondPlan()
    ensures InOrder(Handed())
    ensures var plan := BuildPlan(Handed().tmux, Handed().store, ForB());
      Allowed(plan) && plan.value.alreadyAdopted && plan.value.agentId == "b" && plan.value.pane == "%0"
  {
    hide Valid, PlansOk, Handed, PlacementOf, CodexSessionOf, AliasOf, AgentOf;
    NamesDiffer();
    AgentSays("u", "%0");
    RecordsAfter();
    PaneAfter();
  }

  /** Agent `a`, on record with %0, has %1 adopted; `b` then registers %0, which is free; and the rollback of
      the first adoption gives %0 to `a` as well. */
  lemma SharedAfterRollback()
    ensures InOrder(Start()) && UniqueOwners(Start().store) && InOrder(Handed())
    ensures var after := AfterAdoption(Handed(), ForB(), "y", 10, NewIds());
      InOrder(after) && UniqueOwners(after.store) && !UniqueOwners(Next(after, Rollback("x", 0, [], {})).store)
  {
    hide Valid, PlansOk, BuildPlan, UniqueOwners, HasSession, FreshIds, AfterAdoption;
    NamesDiffer();
    FirstPlan();
    PanesAreValid();
    SecondPlan();
    assert "x"[0] != "y"[0];
    RollbackSharesPane(Start(), ForA(), ForB(), "x", "y", 10, NewIds(), NewIds(), 0);
  }

  /** Adopted for the first time and rolled back, `a` is still marked as popped in, which it was not before. */
  lemma FirstAdoptionLeavesMark()
    ensures InOrder(Start()) && NativeTmuxState !in Records().agents["a"].metadata
    ensures var agents := AfterRun(Start(), ThereAndBack(ForA(), "x", 10, NewIds(), 0)).store.agents;
      && "a" in agents && NativeTmuxState in agents["a"].metadata
      && agents["a"].metadata[NativeTmuxState] == Some("popped_in")
  {
    hide Valid, PlansOk, BuildPlan, AfterRun, HasSession, FreshIds, Calm, SamePlaces, SameButFor, NoOriginAdded,
         PoppedInBefore;
    FirstPlan();
    NamesDiffer();
    PlanInto("agents");
    PanesAreValid();
    IdsAreCalm();
    AdoptionIsUndone(Start(), ForA(), "x", 10, NewIds(), 0);
  }

  /** Another client joins %9 to the control pane of the session just made, and %9 is gone. */
  function Joining(): Env { NewIds().(beforeVerify := [Joins("%9", "%7")]) }

  lemma BystanderExample()
    ensures Valid(Panes()) && Allowed(BuildPlan(Panes(), Records(), Into("fresh")))
    ensures var plan := BuildPlan(Panes(), Records(), Into("fresh")).value;
      var out := Applied(Panes(), Recorded(Records(), "x", plan, 10), "x", Joining());
      out.ok && "%9" in Panes().panes && "%9" !in out.tmux.panes
  {
    hide Valid, PlansOk, BuildPlan, Applicable, Applied, Loses, FreshIds, Holds;
    NamesDiffer();
    PlanInto("fresh");
    PanesAreValid();
    NoFreshSession();
    var plan := BuildPlan(Panes(), Records(), Into("fresh")).value;
    PreviewedIsCurrent(Panes(), Records(), Into("fresh"), "x", 10);
    SameFreshIds(Panes(), NewIds(), Joining());
    BystanderIsLost(Panes(), Recorded(Records(), "x", plan, 10), "x", Joining(), "%9");
  }

  lemma NoFreshSession()
    ensures !HasSession(Panes(), "fresh") && "a" != CONTROL && "fresh" != "work"
  {
    assert "fresh"[0] != "work"[0] && "fresh"[0] != "agents"[0];
  }

  lemma SameFreshIds(t: Server, a: Env, b: Env)
    requires FreshIds(t, a) && b.window == a.window && b.controlWindow == a.controlWindow
    requires b.controlPane == a.controlPane
    ensures FreshIds(t, b)
  {
  }

  /** After that first adoption the batch can be rolled back twice. */
  lemma TwiceExample()
    ensures InOrder(Handed()) && "x" in Handed().store.batches
    ensures var run := TwoRollbacks("x", 0, Handed().store.batches["x"].plan, "%8", SHELL, "@8", "@9");
      ActingRollbacks(Handed(), run, "x") == 2
  {
    hide Valid, PlansOk, BuildPlan, BrokenOut, HasSession, FreshIds, Calm, Revocable, Acts, ActingRollbacks,
         TwoRollbacks, CanGoHome, Panes, Leaves;
    FirstPlan();
    FirstAdoption();
    PanesAreValid();
    IdsAreCalm();
    AdoptionLeaves(Start(), ForA(), "x", 10, NewIds(), 0);
    AdoptedCanGoHome(Start(), ForA(), "x", 10, NewIds(), 0);
    NewNames();
    RolledBackTwice(Handed(), "x", 0, "%8", SHELL, "@8", "@9");
  }

  lemma NewNames()
    ensures InOrder(Handed())
    ensures "%8" !in Handed().tmux.panes && "@8" !in Handed().tmux.windows && "@9" !in Handed().tmux.windows
    ensures "@8" != "@9"
  {
    hide Valid, PlansOk, BuildPlan, Handed, Leaves, Holds;
    FirstAdoption();
    NamesDiffer();
  }
}
