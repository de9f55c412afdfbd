/** Adoptions that nobody disturbs: they succeed, and what undoing them brings back. And the runs in which
    something goes wrong: a bystander's pane is lost, a batch is rolled back twice, a pane gets two owners. */
module AdoptionReturns {
  import opened Options
  import opened Tmux
  import opened Adoption
  import opened AdoptionLaws
  import opened AdoptionRuns

  // ----- An undisturbed break -----

  predicate FreshIds(t: Server, env: Env) {
    && env.window !in t.windows && env.controlWindow !in t.windows && env.window != env.controlWindow
    && env.controlPane !in t.panes
  }

  /** Windows that were there before keep their session and name. */
  ghost predicate KeepsNames(t: Server, t': Server, except: set<string>) {
    forall w :: w in t'.windows && w !in except ==>
      w in t.windows && t'.windows[w].session == t.windows[w].session && t'.windows[w].name == t.windows[w].name
  }

  /** The pane has a window of its own, everything else is where it was. */
  ghost predicate BrokenOut(t: Server, t': Server, plan: Plan, env: Env) {
    && Valid(t') && env.window in t'.windows
    && t'.windows[env.window] == Window(plan.destination, plan.windowName, [plan.pane])
    && (forall q :: q in t.panes ==> q in t'.panes && t'.panes[q] == t.panes[q])
    && (forall w, q :: q in t.panes ==>
          (Holds(t', w, q) <==> if q == plan.pane then w == env.window else Holds(t, w, q)))
    && KeepsNames(t, t', {env.window, env.controlWindow})
  }

  /** A session that was there has nothing new; a new one has its control window as well. */
  ghost predicate OnlyControlIsNew(t: Server, t': Server, plan: Plan, env: Env) {
    if HasSession(t, plan.destination) then t'.panes == t.panes && env.controlWindow !in t'.windows
    else
      && t'.panes == t.panes[env.controlPane := env.controlProcess]
      && env.controlWindow in t'.windows
      && t'.windows[env.controlWindow] == Window(plan.destination, CONTROL, [env.controlPane])
  }

  ghost predicate Ready(t: Server, plan: Plan, env: Env) {
    && Valid(t) && plan.pane in t.panes && FreshIds(t, env) && env.beforeBreak == []
    && OpenSession !in env.fails && Break !in env.fails
    && exists w :: Holds(t, w, plan.pane) && t.windows[w].panes != [plan.pane]
  }

  /** The destination session is there, and what was there before is as it was. */
  ghost predicate OpenedUp(t: Server, t': Server, plan: Plan, env: Env) {
    && Valid(t') && HasSession(t', plan.destination) && env.window !in t'.windows
    && OnlyControlIsNew(t, t', plan, env)
    && (forall q :: q in t.panes ==> q in t'.panes && t'.panes[q] == t.panes[q])
    && (forall w, q :: q in t.panes ==> (Holds(t', w, q) <==> Holds(t, w, q)))
    && (forall w :: w in t.windows ==> w in t'.windows && t'.windows[w] == t.windows[w])
    && KeepsNames(t, t', {env.controlWindow})
  }

  lemma OpenedWorks(t: Server, plan: Plan, env: Env)
    requires Ready(t, plan, env)
    ensures SessionOpened(t, plan, env).Some? && OpenedUp(t, SessionOpened(t, plan, env).value, plan, env)
  {
    hide Valid, NewWindow, Holds;
    if HasSession(t, plan.destination) {
      HeldArePanes(t);
    } else {
      NewSessionWorks(t, plan, env);
    }
  }

  lemma NewSessionWorks(t: Server, plan: Plan, env: Env)
    requires Ready(t, plan, env) && !HasSession(t, plan.destination)
    ensures SessionOpened(t, plan, env).Some? && OpenedUp(t, SessionOpened(t, plan, env).value, plan, env)
  {
    hide Valid, Holds;
    NewWindowWorks(t, plan.destination, CONTROL, env.controlWindow, env.controlPane, env.controlProcess);
    var t' := SessionOpened(t, plan, env).value;
    assert t'.windows[env.controlWindow].session == plan.destination;
  }

  lemma BreakKeepsWindows(t: Server, p: string, session: string, name: string, window: string)
    requires BreakPane(t, p, session, name, window).Some?
    ensures var t' := BreakPane(t, p, session, name, window).value;
      && KeepsNames(t, t', {window})
      && forall w :: w in t.windows && t.windows[w].panes != [] && p !in t.windows[w].panes ==>
           w in t'.windows && t'.windows[w] == t.windows[w]
  {
    var t' := BreakPane(t, p, session, name, window).value;
    forall w | w in t.windows && t.windows[w].panes != [] && p !in t.windows[w].panes
      ensures w in t'.windows && t'.windows[w] == t.windows[w]
    {
      WithoutAbsent(t.windows[w].panes, p);
    }
  }

  lemma {:induction false} WithoutAbsent(s: seq<string>, p: string)
    requires p !in s
    ensures Without(s, p) == s
  {
    if s != [] {
      WithoutAbsent(s[1..], p);
      assert s == [s[0]] + s[1..];
    }
  }

  lemma CanBreak(t: Server, t': Server, plan: Plan, env: Env)
    requires Ready(t, plan, env) && OpenedUp(t, t', plan, env)
    ensures PaneBroken(t', plan, env).Some?
    ensures BreakPane(t', plan.pane, plan.destination, plan.windowName, env.window).Some?
  {
    hide Valid, HasSession, OnlyControlIsNew, KeepsNames;
    var w :| Holds(t, w, plan.pane) && t.windows[w].panes != [plan.pane];
    assert w in t'.windows && plan.pane in t'.windows[w].panes && t'.windows[w].panes != [plan.pane];
  }

  lemma BreakKeepsControl(t: Server, ready: Server, plan: Plan, env: Env)
    requires FreshIds(t, env) && plan.pane in t.panes && OnlyControlIsNew(t, ready, plan, env)
    requires PaneBroken(ready, plan, env).Some?
    ensures OnlyControlIsNew(t, PaneBroken(ready, plan, env).value, plan, env)
  {
    hide BreakPane, HasSession;
    BreakIsDone(ready, plan, env);
    BreakKeepsWindows(ready, plan.pane, plan.destination, plan.windowName, env.window);
    BreakKeepsPanes(ready, plan.pane, plan.destination, plan.windowName, env.window);
  }

  lemma BreakIsDone(t: Server, plan: Plan, env: Env)
    requires PaneBroken(t, plan, env).Some?
    ensures BreakPane(t, plan.pane, plan.destination, plan.windowName, env.window) == PaneBroken(t, plan, env)
  {
  }

  lemma BreakKeepsPanes(t: Server, p: string, session: string, name: string, window: string)
    requires BreakPane(t, p, session, name, window).Some?
    ensures BreakPane(t, p, session, name, window).value.panes == t.panes
    ensures forall w :: w in BreakPane(t, p, session, name, window).value.windows ==> w == window || w in t.windows
    ensures window !in t.windows
  {
  }

  lemma BreakTakesOut(t: Server, ready: Server, plan: Plan, env: Env)
    requires Valid(ready) && OpenedUp(t, ready, plan, env) && plan.pane in t.panes && PaneBroken(ready, plan, env).Some?
    ensures BrokenOut(t, PaneBroken(ready, plan, env).value, plan, env)
  {
    hide Valid, HasSession, OnlyControlIsNew, BreakPane, Holds;
    BreakIsDone(ready, plan, env);
    BreakMoves(ready, plan.pane, plan.destination, plan.windowName, env.window);
    BreakKeepsWindows(ready, plan.pane, plan.destination, plan.windowName, env.window);
  }

  lemma BrokenWorks(t: Server, plan: Plan, env: Env)
    requires Ready(t, plan, env)
    ensures var ready := SessionOpened(t, plan, env).value;
      SessionOpened(t, plan, env).Some? && PaneBroken(ready, plan, env).Some?
    ensures var t' := PaneBroken(SessionOpened(t, plan, env).value, plan, env).value;
      BrokenOut(t, t', plan, env) && OnlyControlIsNew(t, t', plan, env)
  {
    hide Valid, SessionOpened, PaneBroken, BrokenOut, OnlyControlIsNew, HasSession, KeepsNames, Holds;
    OpenedWorks(t, plan, env);
    var ready := SessionOpened(t, plan, env).value;
    CanBreak(t, ready, plan, env);
    BreakTakesOut(t, ready, plan, env);
    BreakKeepsControl(t, ready, plan, env);
  }

  // ----- An undisturbed adoption -----

  predicate Calm(env: Env) { env.beforeBreak == env.beforeVerify == env.beforeEnd == [] && env.fails == {} }

  lemma PlanIsSound(t: Server, store: Store, batchId: string)
    requires Valid(t) && Applicable(t, store, batchId) && !Current(t, store, batchId).alreadyAdopted
    ensures var plan := Current(t, store, batchId);
      && plan.pane in t.panes && plan.source == Some(PlacementOf(t, plan.pane))
      && !EvidenceAgainst(t.panes[plan.pane], plan.codexSession) && plan.source.value.siblings != []
      && batchId in store.batches && plan.agentId in store.agents
  {
    hide Valid, OwnedElsewhere, LiveElsewhere, ClaimedElsewhere, SameSignature;
    PlanIsFree(t, store, batchId);
  }

  lemma HasCompany(t: Server, p: string)
    requires Valid(t) && p in t.panes && PlacementOf(t, p).siblings != []
    ensures exists w :: Holds(t, w, p) && t.windows[w].panes != [p]
  {
    assert Without([p], p) == [];
    assert Holds(t, WindowOf(t, p), p) && t.windows[WindowOf(t, p)].panes != [p];
  }

  /** A pane alone in the window made for it, with its process, passes the checks. */
  lemma FoundIsVerified(t: Server, t': Server, plan: Plan, window: string)
    requires Valid(t) && plan.pane in t.panes && plan.source == Some(PlacementOf(t, plan.pane))
    requires !EvidenceAgainst(t.panes[plan.pane], plan.codexSession)
    requires Valid(t') && plan.pane in t'.panes && t'.panes[plan.pane] == t.panes[plan.pane]
    requires window in t'.windows && t'.windows[window] == Window(plan.destination, plan.windowName, [plan.pane])
    ensures PlacementOf(t', plan.pane) ==
      Placement(plan.destination, window, plan.windowName, plan.pane, t.panes[plan.pane], [])
    ensures Verified(plan, PlacementOf(t', plan.pane))
  {
    hide Valid;
    ValidHolds(t', window, plan.pane);
    assert Without([plan.pane], plan.pane) == [];
  }

  /** Removing the control window of a session just made takes nothing that was there before. */
  lemma RemovalKeepsBroken(t: Server, t': Server, plan: Plan, env: Env)
    requires Valid(t) && BrokenOut(t, t', plan, env) && OnlyControlIsNew(t, t', plan, env) && FreshIds(t, env)
    requires plan.pane in t.panes
    ensures var out := ControlRemoved(t', plan, !HasSession(t, plan.destination), env.fails);
      && BrokenOut(t, out, plan, env)
      && ((RemoveControl !in env.fails && plan.windowName != CONTROL) || HasSession(t, plan.destination) ==>
            out.panes == t.panes)
  {
    hide Valid, KillWindow, Named, HasSession;
    if !HasSession(t, plan.destination) && RemoveControl !in env.fails {
      var named := Named(t', plan.destination, CONTROL);
      var out := KillWindow(t', plan.destination, CONTROL);
      KillWindowWorks(t', plan.destination, CONTROL);
      NewNamed(t, t', plan, env);
      forall q | q in t.panes
        ensures q in out.panes
      {
        var w := WindowOf(t', q);
        assert Holds(t', w, q) && q != env.controlPane;
        assert Holds(out, w, q);
        ValidHolds(out, w, q);
      }
      assert Holds(out, env.window, plan.pane);
      if plan.windowName != CONTROL {
        forall w
          ensures !Holds(out, w, env.controlPane)
        {
          assert Holds(t', w, env.controlPane) ==> w == env.controlWindow by {
            assert Holds(t', env.controlWindow, env.controlPane);
            HeldOnce(t');
          }
        }
        ValidHasHome(out, env.controlPane);
        assert out.panes == t.panes;
      }
    }
  }

  /** The windows named like a control window in a session just made: the control window, and the
      pane's own if that has the name too. */
  lemma NewNamed(t: Server, t': Server, plan: Plan, env: Env)
    requires !HasSession(t, plan.destination) && BrokenOut(t, t', plan, env) && OnlyControlIsNew(t, t', plan, env)
    ensures var named := Named(t', plan.destination, CONTROL);
      && env.controlWindow in named
      && (forall w :: w in named ==> w == env.controlWindow || (w == env.window && plan.windowName == CONTROL))
      && (plan.windowName != CONTROL ==> named == {env.controlWindow})
  {
    hide Valid;
    var named := Named(t', plan.destination, CONTROL);
    NoSuchSession(t, plan.destination);
    assert forall w :: w in named ==> w == env.controlWindow || w == env.window;
  }

  lemma NoSuchSession(t: Server, session: string)
    requires !HasSession(t, session)
    ensures forall w :: w in t.windows ==> t.windows[w].session != session
  {
  }

  /** An allowed adoption that nobody disturbs and in which no call fails completes: the pane has a window
      of its own in the destination, and everything else is where it was. */
  lemma QuietAdoptionSucceeds(t: Server, store: Store, batchId: string, env: Env)
    requires Valid(t) && Applicable(t, store, batchId) && !Current(t, store, batchId).alreadyAdopted
    requires FreshIds(t, env) && Calm(env)
    ensures var out, plan := Applied(t, store, batchId, env), Current(t, store, batchId);
      && out.ok && BrokenOut(t, out.tmux, plan, env)
      && (plan.windowName != CONTROL || HasSession(t, plan.destination) ==> out.tmux.panes == t.panes)
  {
    hide Valid, Applicable, BuildPlan, BrokenOut, OnlyControlIsNew, SessionOpened, PaneBroken, Upserted, Marked,
         Completed, Verified, ControlRemoved, HasSession, EvidenceAgainst, FreshIds, Holds;
    var plan := Current(t, store, batchId);
    PlanIsSound(t, store, batchId);
    HasCompany(t, plan.pane);
    BrokenWorks(t, plan, env);
    var ready := SessionOpened(t, plan, env).value;
    var t' := PaneBroken(ready, plan, env).value;
    NoSteps(ready);
    NoSteps(t');
    BrokenFacts(t, t', plan, env);
    FoundIsVerified(t, t', plan, env.window);
    RemovalKeepsBroken(t, t', plan, env);
  }

  lemma BrokenFacts(t: Server, t': Server, plan: Plan, env: Env)
    requires plan.pane in t.panes && BrokenOut(t, t', plan, env)
    ensures Valid(t') && plan.pane in t'.panes && t'.panes[plan.pane] == t.panes[plan.pane]
    ensures env.window in t'.windows
    ensures t'.windows[env.window] == Window(plan.destination, plan.windowName, [plan.pane])
  {
  }

  // ----- Undoing it -----

  predicate Allowed(plan: Option<Plan>) { plan.Some? && !plan.value.blocked }

  /** A plan just previewed can be applied, and the plan made anew is the same. */
  lemma PreviewedIsCurrent(t: Server, store: Store, r: Request, batchId: string, until: int)
    requires Valid(t) && Allowed(BuildPlan(t, store, r))
    ensures var plan := BuildPlan(t, store, r).value; var previewed := Recorded(store, batchId, plan, until);
      Applicable(t, previewed, batchId) && Current(t, previewed, batchId) == plan
  {
    hide Valid, PlacementOf, OwnedElsewhere, ClaimedElsewhere, LiveElsewhere, EvidenceAgainst;
    var plan := BuildPlan(t, store, r).value;
    RequestIsKept(t, store, r, Recorded(store, batchId, plan, until));
  }

  lemma RequestIsKept(t: Server, store: Store, r: Request, other: Store)
    requires Valid(t) && Allowed(BuildPlan(t, store, r))
    requires other.agents == store.agents && other.mappings == store.mappings
    ensures BuildPlan(t, other, RequestOf(BuildPlan(t, store, r).value)) == BuildPlan(t, store, r)
  {
    hide Valid, PlacementOf, OwnedElsewhere, ClaimedElsewhere, SourceBlocked;
    SameOwners(store, other);
  }

  lemma SameOwners(a: Store, b: Store)
    requires a.agents == b.agents && a.mappings == b.mappings
    ensures forall id, pane, session :: OwnedElsewhere(a, id, pane, session) == OwnedElsewhere(b, id, pane, session)
    ensures forall id, session :: ClaimedElsewhere(a, id, session) == ClaimedElsewhere(b, id, session)
  {
  }

  /** What an adoption that completed has written. */
  lemma AdoptedRecord(t: Server, store: Store, batchId: string, env: Env)
    requires Valid(t) && Applicable(t, store, batchId) && !Current(t, store, batchId).alreadyAdopted
    requires Applied(t, store, batchId, env).ok
    ensures batchId in store.batches
    ensures Leaves(store, batchId, Current(t, store, batchId), env.adoptedAt, Applied(t, store, batchId, env).store)
  {
    hide Valid, Applicable, BuildPlan, Arrived, Upserted, PlacementRestored, KillWindow, AfterSteps, Verified,
         Marked, Completed;
    var plan := Current(t, store, batchId);
    ApplicableIsKnown(t, store, batchId);
    var a := Arrived(t, plan, env);
    var d := PlacementOf(a.tmux, plan.pane);
    UpsertKeepsRest(store, plan.agentId, NewMapping(plan, d));
    MarkKeepsRest(Upserted(store, plan.agentId, NewMapping(plan, d)), plan, d, env.adoptedAt);
    assert Applied(t, store, batchId, env).store == Adopted(store, batchId, plan, d, env.adoptedAt);
  }

  ghost predicate Leaves(store: Store, batchId: string, plan: Plan, at: string, after: Store)
    requires plan.agentId in store.agents && batchId in store.batches
  {
    exists d: Placement :: d.pane == plan.pane && after == Adopted(store, batchId, plan, d, at)
  }

  function Adopted(store: Store, batchId: string, plan: Plan, d: Placement, at: string): Store
    requires plan.agentId in store.agents && batchId in store.batches
  {
    Completed(Marked(Upserted(store, plan.agentId, NewMapping(plan, d)), plan, d, at), batchId)
  }

  /** The stored mapping had an origin, or the adoption brought none. */
  predicate NoOriginAdded(plan: Plan) {
    plan.mapping.None? || HasOrigin(plan.mapping.value) || plan.origin == ""
  }

  /** The plan's snapshot is what the store has. */
  predicate Snapshots(store: Store, plan: Plan) {
    && plan.agentId in store.agents && plan.agent == store.agents[plan.agentId]
    && plan.mapping == MappingFor(store, plan.agentId)
    && plan.agent.caller && (plan.mapping.Some? ==> plan.mapping.value.writer.None?)
  }

  lemma AllowedIsSnapshot(t: Server, store: Store, r: Request)
    requires Valid(t) && Allowed(BuildPlan(t, store, r))
    ensures Snapshots(store, BuildPlan(t, store, r).value)
  {
    hide Valid, PlacementOf, OwnedElsewhere, ClaimedElsewhere, SourceBlocked;
  }

  const ADOPTED_KEYS: set<Key> :=
    {TmuxPaneId, TmuxSession, TmuxWindowId, TmuxWindowName, NativeTmuxState, NativeTmuxAdoptedAt}

  /** Every key that an adoption writes was on record already, as after an earlier adoption. */
  predicate PoppedInBefore(agent: Agent) {
    forall k :: k in ADOPTED_KEYS ==> k in agent.metadata && agent.metadata[k].Some?
  }

  /** Marked by an adoption and written back, a record is as it was exactly if the agent had been popped in
      before; every key that it then had no value for keeps that of the adoption. */
  lemma AdoptedAgentComesBackIff(agent: Agent, d: Placement, at: string, after: Agent)
    requires var adopted := Agent(true, agent.metadata + AdoptedKeys(d, at));
      AgentWrittenBack(adopted, agent, after) && (after == agent <==> AgentComesBack(adopted, agent))
    ensures after == agent <==> PoppedInBefore(agent)
    ensures forall k :: k in ADOPTED_KEYS && !(k in agent.metadata && agent.metadata[k].Some?) ==>
      k in after.metadata && after.metadata[k] == AdoptedKeys(d, at)[k]
  {
    hide AdoptedKeys, AgentComesBack;
    TheAdoptedKeys(d, at);
    NoAdoptedKeyIsNull(d, at);
    AddedComesBackIff(agent, AdoptedKeys(d, at));
  }

  lemma TheAdoptedKeys(d: Placement, at: string)
    ensures AdoptedKeys(d, at).Keys == ADOPTED_KEYS
  {
  }

  /** A record to which keys have been added comes back exactly if it had a value for each of them. */
  lemma AddedComesBackIff(agent: Agent, keys: Metadata)
    requires forall k :: k in keys ==> k != Cwd && keys[k].Some?
    ensures AgentComesBack(Agent(true, agent.metadata + keys), agent) <==>
      forall k :: k in keys ==> k in agent.metadata && agent.metadata[k].Some?
  {
    var m := agent.metadata;
    var adopted := Agent(true, m + keys);
    if AgentComesBack(adopted, agent) {
      forall k | k in keys
        ensures k in m && m[k].Some?
      {
        assert k in adopted.metadata && adopted.metadata[k] == keys[k];
      }
    }
  }

  /** An adoption and its rollback leave the other agents as they were, the agent itself exactly if it had been
      popped in before, and the mappings unless the adoption gave a stored mapping its first origin. */
  lemma RecordsComeBack(store: Store, batchId: string, plan: Plan, d: Placement, at: string, after: Store)
    requires Snapshots(store, plan) && batchId in store.batches && store.batches[batchId].plan == plan
    requires RecordBack(Adopted(store, batchId, plan, d, at), batchId, after)
    ensures SameButFor(store.agents, after.agents, plan.agentId)
    ensures after.agents == store.agents <==> PoppedInBefore(plan.agent)
    ensures plan.agentId in after.agents && StaysMarked(plan.agent, after.agents[plan.agentId])
    ensures after.mappings == store.mappings <==> NoOriginAdded(plan)
    ensures SameButFor(store.batches, after.batches, batchId)
  {
    hide RecordBack, NoOriginAdded, PoppedInBefore, StaysMarked;
    AgentsComeBack(store, batchId, plan, d, at, after);
    MappingsComeBack(store, batchId, plan, d, at, after);
  }

  /** An agent that had no such state on record is left popped in. */
  predicate StaysMarked(agent: Agent, after: Agent) {
    NativeTmuxState !in agent.metadata ==>
      NativeTmuxState in after.metadata && after.metadata[NativeTmuxState] == Some("popped_in")
  }

  lemma AdoptedParts(store: Store, batchId: string, plan: Plan, d: Placement, at: string)
    requires plan.agentId in store.agents && batchId in store.batches
    ensures var adopted := Adopted(store, batchId, plan, d, at);
      && SameButFor(store.agents, adopted.agents, plan.agentId) && plan.agentId in adopted.agents
      && adopted.agents[plan.agentId] == Agent(true, store.agents[plan.agentId].metadata + AdoptedKeys(d, at))
      && SameButFor(store.batches, adopted.batches, batchId)
      && adopted.mappings == Upserted(store, plan.agentId, NewMapping(plan, d)).mappings
      && batchId in adopted.batches && adopted.batches[batchId] == store.batches[batchId].(status := Complete)
  {
    hide Upserted, SameButFor, Merged, AdoptedKeys;
    var metadata := store.agents[plan.agentId].metadata;
    UpsertKeepsRest(store, plan.agentId, NewMapping(plan, d));
    MarkedMetadata(metadata, d, at);
    UpdateKeepsOthers(store.agents, plan.agentId, Agent(true, metadata + AdoptedKeys(d, at)));
    UpdateKeepsOthers(store.batches, batchId, store.batches[batchId].(status := Complete));
  }

  lemma AgentsComeBack(store: Store, batchId: string, plan: Plan, d: Placement, at: string, after: Store)
    requires Snapshots(store, plan) && batchId in store.batches && store.batches[batchId].plan == plan
    requires RecordBack(Adopted(store, batchId, plan, d, at), batchId, after)
    ensures SameButFor(store.agents, after.agents, plan.agentId) && plan.agentId in after.agents
    ensures after.agents == store.agents <==> PoppedInBefore(plan.agent)
    ensures StaysMarked(plan.agent, after.agents[plan.agentId]) && SameButFor(store.batches, after.batches, batchId)
  {
    hide WrittenBack, ComesBackWhole, Adopted, AdoptedKeys, AgentWrittenBack, AgentComesBack, SameButFor,
         PoppedInBefore;
    var adopted := Adopted(store, batchId, plan, d, at);
    AdoptedParts(store, batchId, plan, d, at);
    AdoptedAgentComesBackIff(plan.agent, d, at, after.agents[plan.agentId]);
    TheAdoptedKeys(d, at);
    NoAdoptedKeyIsNull(d, at);
    SameIsTransitive(store.agents, adopted.agents, after.agents, plan.agentId);
    SameIffEqual(store.agents, after.agents, plan.agentId);
    SameIsTransitive(store.batches, adopted.batches, after.batches, batchId);
  }

  lemma MappingsComeBack(store: Store, batchId: string, plan: Plan, d: Placement, at: string, after: Store)
    requires Snapshots(store, plan) && batchId in store.batches && store.batches[batchId].plan == plan
    requires RecordBack(Adopted(store, batchId, plan, d, at), batchId, after)
    ensures after.mappings == store.mappings <==> NoOriginAdded(plan)
  {
    hide Adopted, Upserted, SameButFor, AgentWrittenBack, AgentComesBack, AdoptedKeys;
    var id, m := plan.agentId, NewMapping(plan, d);
    var adopted := Adopted(store, batchId, plan, d, at);
    AdoptedParts(store, batchId, plan, d, at);
    UpsertKeepsOthers(store, id, m);
    SameIsTransitive(store.mappings, adopted.mappings, after.mappings, id);
    SameIffEqual(store.mappings, after.mappings, id);
    UpsertedOrigin(store, id, m);
  }

  lemma UpsertedOrigin(store: Store, agentId: string, m: Mapping)
    ensures var after := Upserted(store, agentId, m).mappings; var earlier := MappingFor(store, agentId);
      && agentId in after
      && after[agentId].origin == (if HasOrigin(m) || earlier.None? then m.origin else earlier.value.origin)
      && after[agentId].writer ==
           (if earlier.Some? && earlier.value.pane == m.pane then earlier.value.writer else None)
  {
  }

  lemma SameIsTransitive<V>(a: map<string, V>, b: map<string, V>, c: map<string, V>, id: string)
    requires SameButFor(a, b, id) && SameButFor(b, c, id)
    ensures SameButFor(a, c, id)
  {
  }

  /** Maps that agree but for one key are equal exactly if they agree on that key. */
  lemma SameIffEqual<V>(a: map<string, V>, b: map<string, V>, id: string)
    requires SameButFor(a, b, id)
    ensures a == b <==> (id in a <==> id in b) && (id in a && id in b ==> a[id] == b[id])
  {
    if (id in a <==> id in b) && (id in a && id in b ==> a[id] == b[id]) {
      forall k
        ensures k in a <==> k in b
        ensures k in a ==> k in b && a[k] == b[k]
      {
        assert k != id ==> (k in a <==> k in a - {id}) && (k in b <==> k in b - {id});
        assert k != id && k in a ==> a[k] == (a - {id})[k] && b[k] == (b - {id})[k];
      }
    }
  }

  /** The adopted pane's first sibling is where it was, and with it the way home. */
  lemma WayHome(t: Server, t': Server, plan: Plan, env: Env)
    requires Valid(t) && plan.pane in t.panes && plan.source == Some(PlacementOf(t, plan.pane))
    requires plan.source.value.siblings != [] && BrokenOut(t, t', plan, env)
    ensures var anchor := FirstSurvivor(t', plan.source.value.siblings);
      && GoesHome(t', plan.source.value, plan.pane, {}) && anchor.Some? && anchor.value in t'.panes
      && WindowOf(t', anchor.value) == WindowOf(t, plan.pane)
  {
    hide Valid;
    var w, anchor := WindowOf(t, plan.pane), plan.source.value.siblings[0];
    WithoutMembers(t.windows[w].panes, plan.pane, anchor);
    assert Holds(t, w, anchor);
    HeldArePanes(t);
    ValidHolds(t', w, anchor);
  }

  /** The adoption can be rolled back until the retention ends. */
  lemma AdoptedIsRevocable(t: Server, t': Server, store: Store, batchId: string, plan: Plan, env: Env, now: int)
    requires Valid(t) && plan.pane in t.panes && plan.source == Some(PlacementOf(t, plan.pane))
    requires BrokenOut(t, t', plan, env)
    requires batchId in store.batches && store.batches[batchId].plan == plan
    requires !store.batches[batchId].rolledBack && now <= store.batches[batchId].retentionUntil
    ensures Revocable(t', store, batchId, now)
  {
    hide Valid;
    BrokenFacts(t, t', plan, env);
    ValidHolds(t', env.window, plan.pane);
  }

  /** Every pane of the first server is in the same window of the second. */
  ghost predicate SamePlaces(t: Server, t': Server) {
    && (forall q :: q in t.panes ==> q in t'.panes && t'.panes[q] == t.panes[q])
    && (forall w, q :: q in t.panes ==> (Holds(t', w, q) <==> Holds(t, w, q)))
  }

  lemma BackInPlace(t: Server, t': Server, f: Server, plan: Plan, env: Env)
    requires Valid(t) && Valid(f) && plan.pane in t.panes && BrokenOut(t, t', plan, env)
    requires OthersStay(t', f, plan.pane) && plan.pane in f.panes && WindowOf(f, plan.pane) == WindowOf(t, plan.pane)
    ensures SamePlaces(t, f)
  {
    hide Valid;
    forall w, q | q in t.panes
      ensures Holds(f, w, q) <==> Holds(t, w, q)
    {
      if q == plan.pane {
        assert Holds(f, WindowOf(f, q), q) && Holds(t, WindowOf(t, q), q);
        assert Holds(f, w, q) ==> w == WindowOf(f, q);
      }
    }
  }

  /** The world after a preview, an undisturbed application and an undisturbed rollback of one batch. */
  function ThereAndBack(r: Request, batchId: string, until: int, env: Env, now: int): seq<Event> {
    [Preview(r, batchId, until), Apply(batchId, env), Rollback(batchId, now, [], {})]
  }

  function AfterAdoption(w: World, r: Request, batchId: string, until: int, env: Env): World
    requires InOrder(w)
  {
    EventKeepsInOrder(w, Preview(r, batchId, until));
    Next(Next(w, Preview(r, batchId, until)), Apply(batchId, env))
  }

  /** The world after an allowed adoption that nobody disturbs. */
  lemma AdoptionLeaves(w: World, r: Request, batchId: string, until: int, env: Env, now: int)
    requires InOrder(w) && Allowed(BuildPlan(w.tmux, w.store, r)) && !BuildPlan(w.tmux, w.store, r).value.alreadyAdopted
    requires FreshIds(w.tmux, env) && Calm(env) && now <= until
    ensures var plan := BuildPlan(w.tmux, w.store, r).value; var after := AfterAdoption(w, r, batchId, until, env);
      && InOrder(after) && plan.pane in w.tmux.panes && plan.source == Some(PlacementOf(w.tmux, plan.pane))
      && BrokenOut(w.tmux, after.tmux, plan, env) && Revocable(after.tmux, after.store, batchId, now)
      && (plan.windowName != CONTROL || HasSession(w.tmux, plan.destination) ==> after.tmux.panes == w.tmux.panes)
      && plan.source.value.siblings != [] && batchId in after.store.batches
      && after.store.batches[batchId].plan == plan && Snapshots(w.store, plan)
      && Leaves(Recorded(w.store, batchId, plan, until), batchId, plan, env.adoptedAt, after.store)
  {
    hide Valid, BuildPlan, Applicable, Applied, BrokenOut, Revocable, Adopted, Snapshots, PlansOk, Arrived, PlacementOf,
         Calm, FreshIds, HasSession;
    var plan := BuildPlan(w.tmux, w.store, r).value;
    var previewed := Next(w, Preview(r, batchId, until));
    EventKeepsInOrder(w, Preview(r, batchId, until));
    PreviewedIsCurrent(w.tmux, w.store, r, batchId, until);
    AllowedIsSnapshot(w.tmux, w.store, r);
    PlanIsSound(w.tmux, previewed.store, batchId);
    QuietAdoptionSucceeds(w.tmux, previewed.store, batchId, env);
    EventKeepsInOrder(previewed, Apply(batchId, env));
    ApplyKeepsBatches(w.tmux, previewed.store, batchId, env);
    AdoptedRecord(w.tmux, previewed.store, batchId, env);
    var after := Next(previewed, Apply(batchId, env));
    AdoptedIsRevocable(w.tmux, after.tmux, after.store, batchId, plan, env, now);
  }

  lemma ReadyToGoHome(w: World, batchId: string, now: int)
    requires InOrder(w) && Revocable(w.tmux, w.store, batchId, now)
    requires GoesHome(w.tmux, w.store.batches[batchId].plan.source.value, w.store.batches[batchId].plan.pane, {})
    ensures RollbackDone(w.tmux, w.store, batchId, now, [], {}).ok
  {
    hide Valid, PlacementRestored, PlacementOf, GoesHome;
    var plan := w.store.batches[batchId].plan;
    NoSteps(w.tmux);
    RestoreGoesHome(w.tmux, plan.source.value, plan.pane, {});
  }

  lemma RecordingKeepsRest(store: Store, batchId: string, plan: Plan, until: int)
    ensures var after := Recorded(store, batchId, plan, until);
      && after.agents == store.agents && after.mappings == store.mappings
      && SameButFor(store.batches, after.batches, batchId)
      && batchId in after.batches && after.batches[batchId].plan == plan
      && (Snapshots(store, plan) ==> Snapshots(after, plan))
  {
    UpdateKeepsOthers(store.batches, batchId, Batch(Previewed, plan, until, false));
  }

  lemma ThreeEvents(w: World, a: Event, b: Event, c: Event)
    requires InOrder(w)
    ensures InOrder(Next(w, a)) && InOrder(Next(Next(w, a), b))
    ensures AfterRun(w, [a, b, c]) == Next(Next(Next(w, a), b), c)
  {
    hide Valid, PlansOk, Next;
    FirstEvent(w, a, [b, c]);
    FirstEvent(Next(w, a), b, [c]);
    FirstEvent(Next(Next(w, a), b), c, []);
    assert [a] + [b, c] == [a, b, c] && [b] + [c] == [b, c] && [c] + [] == [c];
  }

  lemma FirstEvent(w: World, e: Event, events: seq<Event>)
    requires InOrder(w)
    ensures InOrder(Next(w, e)) && AfterRun(w, [e] + events) == AfterRun(Next(w, e), events)
    ensures AfterRun(w, []) == w && AfterRun(Next(w, e), []) == Next(w, e)
  {
    hide Valid, PlansOk, Next;
    EventKeepsInOrder(w, e);
    assert ([e] + events)[1..] == events;
  }

  /** Rolling back an adoption that nobody disturbed undoes it on the server: every pane is in the window it was
      in, with its process. The agents are as they were exactly if the agent had been popped in before: a first
      adoption leaves it marked. The mappings are as they were exactly if the adoption did not give a stored
      mapping its first origin. */
  lemma AdoptionIsUndone(w: World, r: Request, batchId: string, until: int, env: Env, now: int)
    requires InOrder(w) && Allowed(BuildPlan(w.tmux, w.store, r)) && !BuildPlan(w.tmux, w.store, r).value.alreadyAdopted
    requires FreshIds(w.tmux, env) && Calm(env) && now <= until
    ensures var plan := BuildPlan(w.tmux, w.store, r).value;
      var f := AfterRun(w, ThereAndBack(r, batchId, until, env, now));
      && SamePlaces(w.tmux, f.tmux)
      && (plan.windowName != CONTROL || HasSession(w.tmux, plan.destination) ==> f.tmux.panes == w.tmux.panes)
      && SameButFor(w.store.agents, f.store.agents, plan.agentId)
      && (f.store.agents == w.store.agents <==> PoppedInBefore(plan.agent))
      && plan.agentId in f.store.agents && StaysMarked(plan.agent, f.store.agents[plan.agentId])
      && (f.store.mappings == w.store.mappings <==> NoOriginAdded(plan))
      && SameButFor(w.store.batches, f.store.batches, batchId)
      && batchId in f.store.batches && f.store.batches[batchId].rolledBack
  {
    hide Valid, BuildPlan, BrokenOut, Revocable, Adopted, PlansOk, PlacementOf, Applied, RollbackDone,
         Calm, FreshIds, HasSession, NoOriginAdded, SamePlaces, GoesHome, FirstSurvivor, SameButFor;
    var plan := BuildPlan(w.tmux, w.store, r).value;
    var after := AfterAdoption(w, r, batchId, until, env);
    AdoptionLeaves(w, r, batchId, until, env, now);
    var previewed := Recorded(w.store, batchId, plan, until);
    var d: Placement :| d.pane == plan.pane && after.store == Adopted(previewed, batchId, plan, d, env.adoptedAt);
    WayHome(w.tmux, after.tmux, plan, env);
    ReadyToGoHome(after, batchId, now);
    RollbackRestores(after.tmux, after.store, batchId, now, [], {});
    var f := Next(after, Rollback(batchId, now, [], {}));
    NoSteps(after.tmux);
    BackInPlace(w.tmux, after.tmux, f.tmux, plan, env);
    RecordingKeepsRest(w.store, batchId, plan, until);
    RecordsComeBack(previewed, batchId, plan, d, env.adoptedAt, f.store);
    SameIsTransitive(w.store.batches, previewed.batches, f.store.batches, batchId);
    ThreeEvents(w, Preview(r, batchId, until), Apply(batchId, env), Rollback(batchId, now, [], {}));
  }

  // ----- A bystander's pane is lost -----

  predicate Elsewhere(panes: seq<string>, p: string, anchor: string) {
    panes != [] && p !in panes && anchor !in panes
  }

  lemma JoinKeepsWindows(t: Server, p: string, anchor: string)
    requires JoinPane(t, p, anchor).Some?
    ensures var t' := JoinPane(t, p, anchor).value;
      && KeepsNames(t, t', {})
      && forall w :: w in t.windows && Elsewhere(t.windows[w].panes, p, anchor) ==>
           w in t'.windows && t'.windows[w] == t.windows[w]
  {
    var t' := JoinPane(t, p, anchor).value;
    forall w | w in t.windows && Elsewhere(t.windows[w].panes, p, anchor)
      ensures w in t'.windows && t'.windows[w] == t.windows[w]
    {
      WithoutAbsent(t.windows[w].panes, p);
    }
  }

  /** The server after the break and after another client has joined `q` to the control pane. */
  lemma BystanderJoins(t: Server, t2: Server, plan: Plan, env: Env, q: string)
    requires Valid(t) && FreshIds(t, env) && BrokenOut(t, t2, plan, env) && OnlyControlIsNew(t, t2, plan, env)
    requires !HasSession(t, plan.destination) && plan.windowName != CONTROL
    requires q in t.panes && plan.pane in t.panes && q != plan.pane
    ensures var t3 := AfterSteps(t2, [Joins(q, env.controlPane)]);
      && Valid(t3) && t3.panes == t2.panes
      && env.window in t3.windows && t3.windows[env.window] == t2.windows[env.window]
      && q in t3.panes && Named(t3, plan.destination, CONTROL) == {WindowOf(t3, q)}
  {
    hide Valid, JoinPane, HasSession, Named, OnlyControlIsNew, FreshIds;
    var control := env.controlPane;
    assert q != control && plan.pane != control by { ControlIsNone(t, t2, plan, env); }
    ControlIsNone(t, t2, plan, env);
    CanJoin(t2, q, control);
    OneStep(t2, Joins(q, control));
    JoinMoves(t2, q, control);
    JoinKeepsWindows(t2, q, control);
    var t3 := JoinPane(t2, q, control).value;
    assert Holds(t2, env.controlWindow, control);
    ValidHolds(t2, env.controlWindow, control);
    assert Holds(t3, env.controlWindow, q);
    ValidHolds(t3, env.controlWindow, q);
    NewNamed(t, t2, plan, env);
    StillNamed(t2, t3, plan.destination, env.controlWindow);
  }

  lemma ControlIsNone(t: Server, t2: Server, plan: Plan, env: Env)
    requires FreshIds(t, env) && OnlyControlIsNew(t, t2, plan, env) && !HasSession(t, plan.destination)
    ensures env.controlPane !in t.panes && env.controlPane in t2.panes && env.controlWindow in t2.windows
    ensures t2.windows[env.controlWindow].panes == [env.controlPane]
    ensures env.window != env.controlWindow
  {
  }

  lemma OneStep(t: Server, o: Outside)
    ensures AfterSteps(t, [o]) == AfterStep(t, o)
  {
  }

  /** The only window with the name still is, if it is still there. */
  lemma StillNamed(t: Server, t': Server, session: string, w: string)
    requires Named(t, session, CONTROL) == {w} && w in t'.windows && KeepsNames(t, t', {})
    ensures Named(t', session, CONTROL) == {w}
  {
    assert w in Named(t, session, CONTROL);
    forall v
      ensures v in Named(t', session, CONTROL) <==> v == w
    {
      assert v in Named(t', session, CONTROL) ==> v in Named(t, session, CONTROL);
    }
  }

  /** If another client joins a pane to the control pane of the session just made, before the adopted
      pane is inspected, the adoption completes and takes that pane with the control window. */
  lemma BystanderIsLost(t: Server, store: Store, batchId: string, env: Env, q: string)
    requires Valid(t) && Applicable(t, store, batchId) && !Current(t, store, batchId).alreadyAdopted
    requires !HasSession(t, Current(t, store, batchId).destination) && Current(t, store, batchId).windowName != CONTROL
    requires FreshIds(t, env) && env.fails == {} && env.beforeBreak == env.beforeEnd == []
    requires env.beforeVerify == [Joins(q, env.controlPane)]
    requires q in t.panes && q != Current(t, store, batchId).pane
    ensures var out := Applied(t, store, batchId, env);
      out.ok && q !in out.tmux.panes && Loses(t, store, batchId, env, q)
  {
    hide Valid, Applicable, BuildPlan, BrokenOut, OnlyControlIsNew, SessionOpened, PaneBroken, Upserted, Marked,
         Completed, Verified, ControlRemoved, HasSession, EvidenceAgainst, FreshIds, Holds, Named;
    var plan := Current(t, store, batchId);
    PlanIsSound(t, store, batchId);
    HasCompany(t, plan.pane);
    BrokenWorks(t, plan, env);
    var ready := SessionOpened(t, plan, env).value;
    var t2 := PaneBroken(ready, plan, env).value;
    NoSteps(ready);
    BrokenFacts(t, t2, plan, env);
    BystanderJoins(t, t2, plan, env, q);
    var t3 := AfterSteps(t2, env.beforeVerify);
    NoSteps(t3);
    FoundIsVerified(t, t3, plan, env.window);
    ApplyLosesIff(t, store, batchId, env, q);
  }

  /** Without others in between, no application takes a pane that was there before. */
  lemma CalmLosesNothing(t: Server, store: Store, batchId: string, env: Env, p: string)
    requires Valid(t) && p in t.panes && env.beforeBreak == env.beforeVerify == env.beforeEnd == []
    ensures !Loses(t, store, batchId, env, p)
  {
    hide Valid, Applicable, BuildPlan, NewWindow, BreakPane, Named, HasSession, Accepted, Holds;
    if Loses(t, store, batchId, env, p) {
      var plan := Current(t, store, batchId);
      var ready := SessionOpened(t, plan, env).value;
      OpenedIsValid(t, plan, env);
      ControlIsNew(t, plan, env);
      NewWindowWorks(t, plan.destination, CONTROL, env.controlWindow, env.controlPane, env.controlProcess);
      BreakIsDone(ready, plan, env);
      BreakMoves(ready, plan.pane, plan.destination, plan.windowName, env.window);
      BreakKeepsWindows(ready, plan.pane, plan.destination, plan.windowName, env.window);
      BreakKeepsPanes(ready, plan.pane, plan.destination, plan.windowName, env.window);
      PlanIsSound(t, store, batchId);
      var last := Last(t, plan, env);
      ControlStays(ready, last, plan, env);
      NoWindow(t, env.controlWindow, p);
      assert false;
    }
  }

  lemma NoWindow(t: Server, w: string, q: string)
    requires w !in t.windows
    ensures !Holds(t, w, q)
  {
  }

  lemma ControlStays(t: Server, t': Server, plan: Plan, env: Env)
    requires env.controlWindow in t.windows && env.window !in t.windows
    requires t.windows[env.controlWindow] == Window(plan.destination, CONTROL, [env.controlPane])
    requires env.controlPane != plan.pane
    requires forall w :: w in t.windows && t.windows[w].panes != [] && plan.pane !in t.windows[w].panes ==>
      w in t'.windows && t'.windows[w] == t.windows[w]
    ensures env.controlWindow in Named(t', plan.destination, CONTROL) && env.controlWindow != env.window
  {
  }

  predicate CalmAll(events: seq<Event>) {
    forall i :: 0 <= i < |events| && events[i].Apply? ==>
      events[i].env.beforeBreak == events[i].env.beforeVerify == events[i].env.beforeEnd == []
  }

  /** So if nobody touches the server during an application, every pane that does not exit survives any
      run, whichever calls fail. */
  lemma {:induction false} CalmRunKeepsPane(w: World, events: seq<Event>, p: string)
    requires InOrder(w) && SparesAll(events, p) && CalmAll(events) && p in w.tmux.panes
    ensures Survives(w, events, p)
    decreases |events|
  {
    hide Valid, PlansOk, Next, Loses;
    if events != [] {
      EventKeepsInOrder(w, events[0]);
      EventLosesIff(w, events[0], p);
      if events[0].Apply? {
        CalmLosesNothing(w.tmux, w.store, events[0].id, events[0].env, p);
      }
      assert forall i :: 0 <= i < |events[1..]| ==> events[1..][i] == events[i + 1];
      CalmRunKeepsPane(Next(w, events[0]), events[1..], p);
    }
  }

  // ----- A batch is rolled back twice -----

  lemma {:induction false} SurvivorStays(t: Server, t': Server, siblings: seq<string>)
    requires FirstSurvivor(t, siblings).Some? && forall q :: q in t.panes ==> q in t'.panes
    ensures FirstSurvivor(t', siblings).Some?
  {
    if siblings[0] !in t.panes {
      SurvivorStays(t, t', siblings[1..]);
    }
  }

  lemma MovingMakesNoWindow(t: Server, t': Server, p: string, w: string)
    requires Valid(t') && OthersStay(t, t', p) && p in t'.panes && WindowOf(t', p) in t.windows && w !in t.windows
    ensures w !in t'.windows
  {
    hide Valid;
    WindowHasPane(t', w);
    assert w != WindowOf(t', p);
    forall q
      ensures !Holds(t', w, q)
    {
      NoWindow(t, w, q);
    }
  }

  /** Back with its sibling, a pane can be broken out into the same session again. */
  lemma BrokenOutAgain(t: Server, p: string, anchor: string, session: string, q: string, process: Process, u: string,
                       v: string)
    requires Valid(t) && p in t.panes && anchor in t.panes && anchor != p && WindowOf(t, p) == WindowOf(t, anchor)
    requires q !in t.panes && u !in t.windows && v !in t.windows && u != v
    ensures var t1 := AfterStep(t, Opens(session, session, u, q, process));
      var t2 := AfterStep(t1, Breaks(p, session, session, v));
      && Valid(t2) && (forall x :: x in t.panes ==> x in t2.panes && t2.panes[x] == t.panes[x])
      && v in t2.windows && t2.windows[v] == Window(session, session, [p])
  {
    hide Valid, BreakPane, Holds;
    NewWindowWorks(t, session, session, u, q, process);
    var t1 := AfterStep(t, Opens(session, session, u, q, process));
    assert t1.windows[u].session == session;
    assert HasSession(t1, session);
    assert Holds(t1, WindowOf(t, p), p) && Holds(t1, WindowOf(t, p), anchor);
    NotAlone(t1, WindowOf(t, p), p, anchor, session, v);
    BreakMoves(t1, p, session, session, v);
  }

  lemma NotAlone(t: Server, w: string, p: string, anchor: string, session: string, v: string)
    requires Valid(t) && Holds(t, w, p) && Holds(t, w, anchor) && p != anchor
    requires HasSession(t, session) && v !in t.windows
    ensures BreakPane(t, p, session, session, v).Some?
  {
  }

  function TwoRollbacks(id: string, now: int, plan: Plan, q: string, process: Process, u: string, v: string):
    seq<Event>
  {
    [Rollback(id, now, [], {UpdateBatch}), Other(Opens(plan.destination, plan.destination, u, q, process)),
     Other(Breaks(plan.pane, plan.destination, plan.destination, v)), Rollback(id, now, [], {})]
  }

  /** The batch can be rolled back, and the pane has a sibling to go to, in another window. */
  predicate CanGoHome(w: World, id: string, now: int)
    requires Valid(w.tmux)
  {
    && Revocable(w.tmux, w.store, id, now)
    && var plan := w.store.batches[id].plan; var anchor := FirstSurvivor(w.tmux, plan.source.value.siblings);
       && GoesHome(w.tmux, plan.source.value, plan.pane, {}) && anchor.Some?
       && !Holds(w.tmux, WindowOf(w.tmux, plan.pane), anchor.value)
  }

  lemma InterruptedRollback(w: World, id: string, now: int)
    requires InOrder(w) && CanGoHome(w, id, now)
    ensures var e := Rollback(id, now, [], {UpdateBatch}); var w1 := Next(w, e);
      var plan := w.store.batches[id].plan; var anchor := FirstSurvivor(w.tmux, plan.source.value.siblings).value;
      && Valid(w1.tmux) && OthersStay(w.tmux, w1.tmux, plan.pane) && w1.store.batches == w.store.batches
      && plan.pane in w.tmux.panes && anchor in w.tmux.panes && anchor != plan.pane
      && WindowOf(w1.tmux, plan.pane) == WindowOf(w1.tmux, anchor) && WindowOf(w1.tmux, plan.pane) in w.tmux.windows
      && Acts(w, e, id)
  {
    hide Valid, PlacementRestored, PlacementOf, FirstSurvivor, RecordRestored;
    var plan := w.store.batches[id].plan;
    NoSteps(w.tmux);
    RestoreGoesHome(w.tmux, plan.source.value, plan.pane, {UpdateBatch});
    RecordKeepsBatches(w.store, plan, {UpdateBatch});
    var anchor := FirstSurvivor(w.tmux, plan.source.value.siblings).value;
    var w1 := Next(w, Rollback(id, now, [], {UpdateBatch}));
    assert Holds(w.tmux, WindowOf(w.tmux, anchor), anchor);
    ValidHolds(w1.tmux, WindowOf(w.tmux, anchor), anchor);
  }

  lemma StillRevocable(w: World, w': World, id: string, now: int, v: string)
    requires Valid(w.tmux) && Revocable(w.tmux, w.store, id, now) && w'.store.batches == w.store.batches
    requires var plan := w.store.batches[id].plan;
      && GoesHome(w.tmux, plan.source.value, plan.pane, {})
      && v in w'.tmux.windows && w'.tmux.windows[v] == Window(plan.destination, plan.destination, [plan.pane])
    requires Valid(w'.tmux)
    requires forall x :: x in w.tmux.panes ==> x in w'.tmux.panes && w'.tmux.panes[x] == w.tmux.panes[x]
    ensures Revocable(w'.tmux, w'.store, id, now)
    ensures var plan := w'.store.batches[id].plan; GoesHome(w'.tmux, plan.source.value, plan.pane, {})
  {
    hide Valid, FirstSurvivor;
    var plan := w.store.batches[id].plan;
    SurvivorStays(w.tmux, w'.tmux, plan.source.value.siblings);
    ValidHolds(w'.tmux, v, plan.pane);
  }

  lemma LastRollbackActs(w: World, id: string, now: int)
    requires InOrder(w) && Revocable(w.tmux, w.store, id, now)
    requires var plan := w.store.batches[id].plan; GoesHome(w.tmux, plan.source.value, plan.pane, {})
    ensures Acts(w, Rollback(id, now, [], {}), id)
  {
    hide Valid, PlansOk, PlacementOf, RollbackDone, GoesHome;
    ReadyToGoHome(w, id, now);
    RollbackKeepsInOrder(w, id, now, [], {});
  }

  lemma CountedTwice(w: World, run: seq<Event>, id: string)
    requires InOrder(w) && |run| == 4 && Acts(w, run[0], id) && run[1].Other? && run[2].Other?
    requires var w1 := Next(w, run[0]);
      && InOrder(w1) && InOrder(Next(w1, run[1])) && InOrder(Next(Next(w1, run[1]), run[2]))
      && Acts(Next(Next(w1, run[1]), run[2]), run[3], id)
    ensures ActingRollbacks(w, run, id) == 2
  {
    hide Valid, PlansOk, Next, Acts;
    var w1 := Next(w, run[0]);
    var w2 := Next(w1, run[1]);
    var w3 := Next(w2, run[2]);
    EventKeepsInOrder(w3, run[3]);
    NoneLeft(Next(w3, run[3]), run[4..], id);
    assert run[3..][1..] == run[4..] && ActingRollbacks(w3, run[3..], id) == 1;
    OtherDoesNotAct(w2, run[2], id);
    assert run[2..][1..] == run[3..] && ActingRollbacks(w2, run[2..], id) == 1;
    OtherDoesNotAct(w1, run[1], id);
    assert run[1..][1..] == run[2..] && ActingRollbacks(w1, run[1..], id) == 1;
  }

  lemma NoneLeft(w: World, events: seq<Event>, id: string)
    requires InOrder(w) && events == []
    ensures ActingRollbacks(w, events, id) == 0
  {
  }

  lemma OtherDoesNotAct(w: World, e: Event, id: string)
    requires Valid(w.tmux) && e.Other?
    ensures !Acts(w, e, id)
  {
  }

  /** A rollback that fails only at the last record has moved the pane and rewritten the records. When the
      user then breaks the pane out into the destination session again, a second rollback of the same batch
      goes through and moves it once more. */
  lemma RolledBackTwice(w: World, id: string, now: int, q: string, process: Process, u: string, v: string)
    requires InOrder(w) && CanGoHome(w, id, now)
    requires q !in w.tmux.panes && u !in w.tmux.windows && v !in w.tmux.windows && u != v
    ensures ActingRollbacks(w, TwoRollbacks(id, now, w.store.batches[id].plan, q, process, u, v), id) == 2
  {
    hide Valid, PlansOk, Revocable, RollbackDone, AfterStep, GoesHome, FirstSurvivor, Holds, OthersStay, Acts;
    RevocableIsKnown(w.tmux, w.store, id, now);
    var plan := w.store.batches[id].plan;
    var run := TwoRollbacks(id, now, plan, q, process, u, v);
    InterruptedRollback(w, id, now);
    var w1 := Next(w, run[0]);
    EventKeepsInOrder(w, run[0]);
    var anchor := FirstSurvivor(w.tmux, plan.source.value.siblings).value;
    SamePanes(w.tmux, w1.tmux, plan.pane);
    MovingMakesNoWindow(w.tmux, w1.tmux, plan.pane, u);
    MovingMakesNoWindow(w.tmux, w1.tmux, plan.pane, v);
    BrokenOutAgain(w1.tmux, plan.pane, anchor, plan.destination, q, process, u, v);
    EventKeepsInOrder(w1, run[1]);
    var w2 := Next(w1, run[1]);
    EventKeepsInOrder(w2, run[2]);
    var w3 := Next(w2, run[2]);
    StillRevocable(w, w3, id, now, v);
    LastRollbackActs(w3, id, now);
    CountedTwice(w, run, id);
  }

  lemma SamePanes(t: Server, t': Server, p: string)
    requires OthersStay(t, t', p)
    ensures t'.panes == t.panes
  {
  }

  /** Every undisturbed adoption leads to a world in which this can happen. */
  lemma AdoptedCanGoHome(w: World, r: Request, batchId: string, until: int, env: Env, now: int)
    requires InOrder(w) && Allowed(BuildPlan(w.tmux, w.store, r)) && !BuildPlan(w.tmux, w.store, r).value.alreadyAdopted
    requires FreshIds(w.tmux, env) && Calm(env) && now <= until
    ensures InOrder(AfterAdoption(w, r, batchId, until, env))
    ensures CanGoHome(AfterAdoption(w, r, batchId, until, env), batchId, now)
  {
    hide Valid, PlansOk, BuildPlan, BrokenOut, Revocable, Applied, Snapshots, Leaves, Calm, FreshIds, HasSession,
         GoesHome, FirstSurvivor, PlacementOf;
    var plan := BuildPlan(w.tmux, w.store, r).value;
    var after := AfterAdoption(w, r, batchId, until, env);
    AdoptionLeaves(w, r, batchId, until, env, now);
    WayHome(w.tmux, after.tmux, plan, env);
    BrokenFacts(w.tmux, after.tmux, plan, env);
    ValidHolds(after.tmux, env.window, plan.pane);
    PreviewedIsNoSibling(w.tmux, w.store, r);
    SurvivorIsOther(after.tmux, plan);
    AloneInWindow(after.tmux, env.window, plan.pane, FirstSurvivor(after.tmux, plan.source.value.siblings).value);
  }

  lemma SurvivorIsOther(t: Server, plan: Plan)
    requires plan.source.Some? && FirstSurvivor(t, plan.source.value.siblings).Some?
    ensures FirstSurvivor(t, plan.source.value.siblings).value in plan.source.value.siblings
  {
    SurvivorIsFirst(t, plan.source.value.siblings);
  }

  lemma AloneInWindow(t: Server, w: string, p: string, q: string)
    requires w in t.windows && t.windows[w].panes == [p] && p != q
    ensures !Holds(t, w, q)
  {
  }

  // ----- A pane gets a second owner -----

  lemma RegisteredOwns(w: World, r: Request, batchId: string, until: int, env: Env)
    requires InOrder(w) && Allowed(BuildPlan(w.tmux, w.store, r)) && BuildPlan(w.tmux, w.store, r).value.alreadyAdopted
    requires env.fails == {}
    ensures var plan := BuildPlan(w.tmux, w.store, r).value; var after := AfterAdoption(w, r, batchId, until, env);
      && InOrder(after) && after.tmux == w.tmux && SameButFor(w.store.batches, after.store.batches, batchId)
      && plan.agentId in after.store.mappings && after.store.mappings[plan.agentId].pane == plan.pane
  {
    hide Valid, BuildPlan, Applicable, PlansOk, Upserted, Completed, OwnedElsewhere, LiveElsewhere, SameButFor;
    var plan := BuildPlan(w.tmux, w.store, r).value;
    var previewed := Next(w, Preview(r, batchId, until));
    EventKeepsInOrder(w, Preview(r, batchId, until));
    PreviewedIsCurrent(w.tmux, w.store, r, batchId, until);
    PlanIsFree(w.tmux, previewed.store, batchId);
    EventKeepsInOrder(previewed, Apply(batchId, env));
    RegistrationKeeps(previewed.store, batchId, plan, w.tmux, env);
    RecordingKeepsRest(w.store, batchId, plan, until);
    var after := Next(previewed, Apply(batchId, env));
    SameIsTransitive(w.store.batches, previewed.store.batches, after.store.batches, batchId);
  }

  lemma RegistrationKeeps(store: Store, batchId: string, plan: Plan, t: Server, env: Env)
    requires plan.source.Some? && batchId in store.batches && env.fails == {}
    ensures var out := Registered(t, store, batchId, plan, env.fails);
      && out.tmux == t && SameButFor(store.batches, out.store.batches, batchId)
      && plan.agentId in out.store.mappings && out.store.mappings[plan.agentId].pane == plan.source.value.pane
  {
    UpdateKeepsOthers(store.batches, batchId, store.batches[batchId].(status := Complete));
  }

  lemma SameElsewhere<V>(a: map<string, V>, b: map<string, V>, id: string, k: string)
    requires SameButFor(a, b, id) && k in a && k != id
    ensures k in b && b[k] == a[k]
  {
    assert k in a - {id} && k in b - {id} && (a - {id})[k] == (b - {id})[k];
  }

  /** Agent `a` had another pane on record when its adoption was previewed; once the adoption is complete,
      the service lets `b` have that pane. Rolling `a` back then gives the pane two owners, although there
      was none with two before. */
  lemma RollbackSharesPane(w: World, a: Request, b: Request, idA: string, idB: string, until: int, envA: Env, envB: Env,
                           now: int)
    requires InOrder(w) && UniqueOwners(w.store) && idA != idB && now <= until
    requires Allowed(BuildPlan(w.tmux, w.store, a)) && !BuildPlan(w.tmux, w.store, a).value.alreadyAdopted
    requires FreshIds(w.tmux, envA) && Calm(envA) && envB.fails == {}
    requires var w1 := AfterAdoption(w, a, idA, until, envA); var planA := BuildPlan(w.tmux, w.store, a).value;
      && InOrder(w1) && Allowed(BuildPlan(w1.tmux, w1.store, b))
      && var planB := BuildPlan(w1.tmux, w1.store, b).value;
         && planB.alreadyAdopted && planB.agentId != planA.agentId
         && planA.mapping.Some? && planA.mapping.value.pane == planB.pane
    ensures var w1 := AfterAdoption(w, a, idA, until, envA); var w2 := AfterAdoption(w1, b, idB, until, envB);
      && InOrder(w2) && UniqueOwners(w2.store) && !UniqueOwners(Next(w2, Rollback(idA, now, [], {})).store)
  {
    hide Valid, BuildPlan, PlansOk, Revocable, GoesHome, FirstSurvivor, Applied, RollbackDone, BrokenOut, UniqueOwners,
         SameButFor, WrittenBack, ComesBackWhole, PlacementOf, Snapshots, Leaves, Calm, FreshIds, HasSession,
         OthersStay;
    var planA := BuildPlan(w.tmux, w.store, a).value;
    var w1 := AfterAdoption(w, a, idA, until, envA);
    AdoptionLeaves(w, a, idA, until, envA, now);
    var planB := BuildPlan(w1.tmux, w1.store, b).value;
    var w2 := AfterAdoption(w1, b, idB, until, envB);
    RegisteredOwns(w1, b, idB, until, envB);
    AdoptionKeepsOwners(w, a, idA, until, envA);
    AdoptionKeepsOwners(w1, b, idB, until, envB);
    SameElsewhere(w1.store.batches, w2.store.batches, idB, idA);
    StillCurrent(w1, w2, idA, now);
    WayHome(w.tmux, w1.tmux, planA, envA);
    ReadyToGoHome(w2, idA, now);
    RollbackRestores(w2.tmux, w2.store, idA, now, [], {});
    var f := Next(w2, Rollback(idA, now, [], {}));
    SharedPane(w2.store, f.store, idA, planA, planB.agentId);
  }

  lemma StillCurrent(w: World, w': World, id: string, now: int)
    requires Valid(w.tmux) && Revocable(w.tmux, w.store, id, now) && w'.tmux == w.tmux
    requires id in w'.store.batches && w'.store.batches[id] == w.store.batches[id]
    ensures Revocable(w'.tmux, w'.store, id, now)
  {
  }

  lemma AdoptionKeepsOwners(w: World, r: Request, batchId: string, until: int, env: Env)
    requires InOrder(w) && UniqueOwners(w.store)
    ensures UniqueOwners(AfterAdoption(w, r, batchId, until, env).store)
  {
    hide Valid, PlansOk, BuildPlan, Applied;
    var e := Preview(r, batchId, until);
    EventKeepsInOrder(w, e);
    assert Next(w, e).store.mappings == w.store.mappings;
    ApplyKeepsOwners(Next(w, e).tmux, Next(w, e).store, batchId, env);
  }

  lemma SharedPane(before: Store, after: Store, batchId: string, plan: Plan, other: string)
    requires RecordBack(before, batchId, after) && before.batches[batchId].plan == plan && plan.mapping.Some?
    requires other in before.mappings && other != plan.agentId && before.mappings[other].pane == plan.mapping.value.pane
    ensures !UniqueOwners(after)
  {
    SameElsewhere(before.mappings, after.mappings, plan.agentId, other);
    assert !Apart(after.mappings[plan.agentId], after.mappings[other]);
  }
}
