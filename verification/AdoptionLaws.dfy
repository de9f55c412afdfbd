/** What one adoption and one rollback do to the panes, the records and their owners. */
module AdoptionLaws {
  import opened Options
  import opened Tmux
  import opened Adoption

  // ----- Plans -----

  /** Every plan on record was made by a preview: a pane is never a sibling of its own. */
  ghost predicate PlansOk(store: Store) {
    forall b :: b in store.batches ==>
      var plan := store.batches[b].plan; plan.source.Some? ==> plan.pane !in plan.source.value.siblings
  }

  lemma PreviewedIsNoSibling(t: Server, store: Store, r: Request)
    requires Valid(t) && BuildPlan(t, store, r).Some? && BuildPlan(t, store, r).value.source.Some?
    ensures var plan := BuildPlan(t, store, r).value; plan.pane !in plan.source.value.siblings
  {
    hide Valid, SourceBlocked, ClaimedElsewhere, OwnedElsewhere;
    var plan := BuildPlan(t, store, r).value;
    WithoutMembers(t.windows[WindowOf(t, plan.pane)].panes, plan.pane, plan.pane);
  }

  lemma PlanIsNoSibling(t: Server, store: Store, batchId: string)
    requires Valid(t) && Applicable(t, store, batchId)
    ensures var plan := Current(t, store, batchId); plan.pane !in plan.source.value.siblings
  {
    hide Valid, BuildPlan;
    var plan := Current(t, store, batchId);
    PreviewedIsNoSibling(t, store, RequestOf(store.batches[batchId].plan));
  }

  // ----- Putting a pane back -----

  predicate FirstAlive(t: Server, siblings: seq<string>, i: nat) {
    i < |siblings| && siblings[i] in t.panes && forall j :: 0 <= j < i ==> siblings[j] !in t.panes
  }

  /** The first survivor is the first sibling in the list that is still there. */
  lemma {:induction false} SurvivorIsFirst(t: Server, siblings: seq<string>)
    ensures FirstSurvivor(t, siblings).None? ==> forall i :: 0 <= i < |siblings| ==> siblings[i] !in t.panes
    ensures FirstSurvivor(t, siblings).Some? ==>
      exists i: nat :: FirstAlive(t, siblings, i) && siblings[i] == FirstSurvivor(t, siblings).value
  {
    if siblings != [] {
      if siblings[0] in t.panes {
        assert FirstAlive(t, siblings, 0);
      } else {
        SurvivorIsFirst(t, siblings[1..]);
        if FirstSurvivor(t, siblings).Some? {
          var i: nat :| FirstAlive(t, siblings[1..], i) && siblings[1..][i] == FirstSurvivor(t, siblings).value;
          forall j | 0 <= j < i + 1
            ensures siblings[j] !in t.panes
          {
            assert j > 0 ==> siblings[1..][j - 1] == siblings[j];
          }
          assert FirstAlive(t, siblings, i + 1) && siblings[i + 1] == FirstSurvivor(t, siblings).value;
        }
      }
    }
  }

  /** There is a sibling to go to, and the join does not fail. */
  predicate GoesHome(t: Server, source: Placement, pane: string, fails: set<Call>) {
    pane in t.panes && FirstSurvivor(t, source.siblings).Some? && Join !in fails
  }

  /** Every pane but one is where it was. */
  ghost predicate OthersStay(t: Server, t': Server, pane: string) {
    t'.panes == t.panes && forall w, q :: q != pane ==> (Holds(t', w, q) <==> Holds(t, w, q))
  }

  /** Putting a pane back moves it into the window where its first surviving sibling now is, and moves
      nothing else; without a survivor, or if the join fails, nothing moves. */
  lemma RestoreGoesHome(t: Server, source: Placement, pane: string, fails: set<Call>)
    requires Valid(t) && pane !in source.siblings
    ensures var r := PlacementRestored(t, source, pane, fails);
      && Valid(r.tmux) && OthersStay(t, r.tmux, pane)
      && (r.ok <==> GoesHome(t, source, pane, fails) && Layout !in fails)
      && (if GoesHome(t, source, pane, fails) then
            var anchor := FirstSurvivor(t, source.siblings).value;
            anchor in t.panes && anchor != pane && WindowOf(r.tmux, pane) == WindowOf(t, anchor)
          else r.tmux == t)
  {
    hide Valid, JoinPane, FirstSurvivor, Holds;
    SurvivorIsFirst(t, source.siblings);
    var anchor := FirstSurvivor(t, source.siblings);
    if GoesHome(t, source, pane, fails) {
      CanJoin(t, pane, anchor.value);
      JoinMoves(t, pane, anchor.value);
    } else if anchor.Some? && Join !in fails {
      CannotJoin(t, pane, anchor.value);
    }
  }

  lemma CannotJoin(t: Server, p: string, anchor: string)
    requires p !in t.panes
    ensures JoinPane(t, p, anchor).None?
  {
  }

  lemma CanJoin(t: Server, p: string, anchor: string)
    requires p in t.panes && anchor in t.panes && p != anchor
    ensures JoinPane(t, p, anchor).Some?
  {
  }

  // ----- One application -----

  lemma AloneIfNoSiblings(panes: seq<string>, p: string)
    requires NoRepeats(panes) && p in panes && Without(panes, p) == []
    ensures panes == [p]
  {
    WithoutMembers(panes, p, panes[0]);
    if |panes| > 1 {
      WithoutMembers(panes, p, panes[1]);
    }
  }

  /** The pane is alone in a window of the session. */
  ghost predicate AloneIn(t: Server, pane: string, session: string) {
    && Valid(t) && pane in t.panes
    && t.windows[WindowOf(t, pane)].session == session && t.windows[WindowOf(t, pane)].panes == [pane]
  }

  lemma NoSiblingsIsAlone(t: Server, pane: string)
    requires Valid(t) && pane in t.panes && PlacementOf(t, pane).siblings == []
    ensures AloneIn(t, pane, PlacementOf(t, pane).session)
  {
    AloneIfNoSiblings(t.windows[WindowOf(t, pane)].panes, pane);
  }

  /** The window the service killed is the pane's own: it was the only one named like the control
      window in a session the service had just made. */
  predicate KilledItself(t: Server, plan: Plan, created: bool, fails: set<Call>)
    requires Valid(t) && plan.pane in t.panes
  {
    created && RemoveControl !in fails && Named(t, plan.destination, CONTROL) == {WindowOf(t, plan.pane)}
  }

  lemma KillSpares(t: Server, session: string, pane: string)
    requires Valid(t) && pane in t.panes && AloneIn(t, pane, session)
    ensures var t' := KillWindow(t, session, CONTROL);
      if Named(t, session, CONTROL) == {WindowOf(t, pane)} then pane !in t'.panes
      else pane in t'.panes && AloneIn(t', pane, session) && t'.panes[pane] == t.panes[pane]
           && WindowOf(t', pane) == WindowOf(t, pane)
  {
    hide Valid, KillWindow, Named;
    var w := WindowOf(t, pane);
    KillWindowWorks(t, session, CONTROL);
    var t' := KillWindow(t, session, CONTROL);
    if Named(t, session, CONTROL) == {w} {
      assert forall v :: !Holds(t', v, pane);
      ValidHasHome(t', pane);
    } else {
      assert Holds(t', w, pane);
      ValidHolds(t', w, pane);
    }
  }

  lemma ValidHasHome(t: Server, pane: string)
    requires Valid(t)
    ensures pane in t.panes ==> exists w :: Holds(t, w, pane)
  {
  }

  lemma ValidHolds(t: Server, w: string, pane: string)
    requires Valid(t) && Holds(t, w, pane)
    ensures pane in t.panes && WindowOf(t, pane) == w
  {
  }

  /** No other entity has the pane or the session. */
  predicate SoleOwner(store: Store, agentId: string, pane: string, codexSession: string) {
    && agentId in store.mappings && store.mappings[agentId].pane == pane
    && !OwnedElsewhere(store, agentId, pane, codexSession)
  }

  lemma UpsertedIsOwner(store: Store, agentId: string, m: Mapping, codexSession: string)
    requires !OwnedElsewhere(store, agentId, m.pane, codexSession)
    ensures SoleOwner(Upserted(store, agentId, m), agentId, m.pane, codexSession)
    ensures Upserted(store, agentId, m).mappings[agentId].window == m.window
  {
    var after := Upserted(store, agentId, m);
    forall id | id in after.mappings && id != agentId
      ensures !Shares(after.mappings[id], m.pane, codexSession)
    {
      assert id in store.mappings && after.mappings[id] == store.mappings[id];
    }
  }

  /** Once the pane has been checked and registered, it was found alone in a window of the destination,
      that window is on record, and the agent is the only owner. If nobody interfered afterwards, the
      pane is still there, unless the service killed that very window. */
  lemma SettledIsAlone(t: Server, store: Store, batchId: string, plan: Plan, created: bool, env: Env)
    requires Valid(t) && plan.pane in t.panes && plan.source.Some?
    requires plan.agentId in store.agents && batchId in store.batches
    requires !OwnedElsewhere(store, plan.agentId, plan.pane, plan.codexSession)
    requires Settled(t, store, batchId, plan, created, env).ok
    ensures var out := Settled(t, store, batchId, plan, created, env);
      && SoleOwner(out.store, plan.agentId, plan.pane, plan.codexSession)
      && batchId in out.store.batches && out.store.batches[batchId].status == Complete
      && plan.agentId in out.store.agents
      && TextAt(out.store.agents[plan.agentId].metadata, TmuxPaneId) == plan.pane
      && AloneIn(t, plan.pane, plan.destination) && t.panes[plan.pane].pid == plan.source.value.process.pid
      && out.store.mappings[plan.agentId].window == WindowOf(t, plan.pane)
      && (env.beforeEnd == [] ==>
            if KilledItself(t, plan, created, env.fails) then plan.pane !in out.tmux.panes
            else
              && plan.pane in out.tmux.panes && AloneIn(out.tmux, plan.pane, plan.destination)
              && out.tmux.panes[plan.pane] == t.panes[plan.pane]
              && WindowOf(out.tmux, plan.pane) == WindowOf(t, plan.pane))
  {
    hide Valid, KillWindow, PlacementRestored, AloneIn, Upserted, OwnedElsewhere, Named, Merged, TextAt;
    var d := PlacementOf(t, plan.pane);
    NoSiblingsIsAlone(t, plan.pane);
    UpsertedIsOwner(store, plan.agentId, NewMapping(plan, d), plan.codexSession);
    UpsertKeepsRest(store, plan.agentId, NewMapping(plan, d));
    var registered := Upserted(store, plan.agentId, NewMapping(plan, d));
    MarkKeepsOwner(registered, plan, d, env.adoptedAt);
    KillSpares(t, plan.destination, plan.pane);
  }

  lemma MarkKeepsOwner(store: Store, plan: Plan, d: Placement, at: string)
    requires plan.agentId in store.agents && d.pane == plan.pane
    ensures var marked := Marked(store, plan, d, at);
      && marked.mappings == store.mappings && marked.batches == store.batches
      && TextAt(marked.agents[plan.agentId].metadata, TmuxPaneId) == plan.pane
      && (forall b :: b in marked.batches ==>
            Completed(marked, b).mappings == store.mappings && Completed(marked, b).agents == marked.agents
            && Completed(marked, b).batches[b].status == Complete)
      && forall b :: b in marked.batches ==>
            (SoleOwner(store, plan.agentId, plan.pane, plan.codexSession)
             ==> SoleOwner(Completed(marked, b), plan.agentId, plan.pane, plan.codexSession))
  {
    hide Merged;
    MarkedMetadata(store.agents[plan.agentId].metadata, d, at);
    var marked := Marked(store, plan, d, at);
    forall b | b in marked.batches
      ensures SoleOwner(store, plan.agentId, plan.pane, plan.codexSession)
             ==> SoleOwner(Completed(marked, b), plan.agentId, plan.pane, plan.codexSession)
    {
      assert Completed(marked, b).mappings == store.mappings;
    }
  }

  lemma PlanIsFree(t: Server, store: Store, batchId: string)
    requires Valid(t) && Applicable(t, store, batchId)
    ensures var plan := Current(t, store, batchId);
      && batchId in store.batches && plan.pane != "" && plan.codexSession != "" && plan.pane in t.panes
      && plan.source == Some(PlacementOf(t, plan.pane))
      && !OwnedElsewhere(store, plan.agentId, plan.pane, plan.codexSession)
      && !LiveElsewhere(t, plan.pane, plan.codexSession)
      && SameSignature(plan.source, store.batches[batchId].plan.source)
  {
    hide Valid, PlacementOf, OwnedElsewhere, LiveElsewhere, ClaimedElsewhere, SameSignature;
  }

  /** The main result about one adoption, whatever others do meanwhile. If it completes, the agent is
      the only owner of pane and session, and the pane was found alone in the window now on record, in
      the destination, with the process it had at the preview. If nobody interferes afterwards, a pane
      still there is still alone; it can be missing only if its window has the control window's name. */
  lemma AdoptionCompletes(t: Server, store: Store, batchId: string, env: Env)
    requires Valid(t) && Applicable(t, store, batchId) && !Current(t, store, batchId).alreadyAdopted
    requires Applied(t, store, batchId, env).ok
    ensures var out, plan := Applied(t, store, batchId, env), Current(t, store, batchId);
      var a := Arrived(t, plan, env).tmux;
      && SoleOwner(out.store, plan.agentId, plan.pane, plan.codexSession)
      && batchId in out.store.batches && out.store.batches[batchId].status == Complete
      && AloneIn(a, plan.pane, plan.destination) && out.store.mappings[plan.agentId].window == WindowOf(a, plan.pane)
      && a.panes[plan.pane].pid == store.batches[batchId].plan.source.value.process.pid
      && (env.beforeEnd == [] && plan.pane in out.tmux.panes ==>
            && AloneIn(out.tmux, plan.pane, plan.destination) && out.tmux.panes[plan.pane] == a.panes[plan.pane]
            && WindowOf(out.tmux, plan.pane) == WindowOf(a, plan.pane))
      && (env.beforeVerify == [] && env.beforeEnd == [] && plan.windowName != CONTROL ==>
            plan.pane in out.tmux.panes)
  {
    hide Valid, Applicable, Settled, AloneIn, KillWindow, OwnedElsewhere, PaneBroken, SessionOpened, AfterSteps,
         LiveElsewhere;
    var plan := Current(t, store, batchId);
    PlanIsFree(t, store, batchId);
    var a := Arrived(t, plan, env);
    assert a.found;
    SettledIsAlone(a.tmux, store, batchId, plan, !HasSession(t, plan.destination), env);
    if env.beforeVerify == [] && plan.windowName != CONTROL {
      QuietArrival(t, plan, env);
      NotKilled(a.tmux, plan, !HasSession(t, plan.destination), env.fails);
    }
  }

  /** With nobody in between, the pane arrives in the window just made for it. */
  lemma QuietArrival(t: Server, plan: Plan, env: Env)
    requires Valid(t) && env.beforeVerify == [] && Arrived(t, plan, env).found
    ensures var t' := Arrived(t, plan, env).tmux;
      WindowOf(t', plan.pane) == env.window && t'.windows[env.window].name == plan.windowName
  {
    hide Valid, BreakPane, SessionOpened;
    OpenedIsValid(t, plan, env);
    var ready := SessionOpened(t, plan, env).value;
    StepsKeepValid(ready, env.beforeBreak);
    var t1 := AfterSteps(ready, env.beforeBreak);
    BreakMoves(t1, plan.pane, plan.destination, plan.windowName, env.window);
    assert Holds(Arrived(t, plan, env).tmux, env.window, plan.pane);
  }

  lemma NotKilled(t: Server, plan: Plan, created: bool, fails: set<Call>)
    requires Valid(t) && plan.pane in t.panes && t.windows[WindowOf(t, plan.pane)].name != CONTROL
    ensures !KilledItself(t, plan, created, fails)
  {
    hide Valid;
    assert WindowOf(t, plan.pane) !in Named(t, plan.destination, CONTROL);
  }

  // ----- Failures -----

  /** The server after the last outside change to an application. */
  function Last(t: Server, plan: Plan, env: Env): (last: Server)
    requires Valid(t)
    ensures Valid(last)
  {
    var a := Arrived(t, plan, env);
    StepsKeepValid(a.tmux, env.beforeEnd);
    if a.found then AfterSteps(a.tmux, env.beforeEnd) else a.tmux
  }

  /** The pane was found, and passed the checks and records that come before it is adopted. */
  predicate Passes(t: Server, plan: Plan, env: Env)
    requires Valid(t) && plan.source.Some?
  {
    var a := Arrived(t, plan, env);
    a.found && Accepted(plan, PlacementOf(a.tmux, plan.pane), env.fails)
  }

  /** A failed application puts the pane back: it was found after the break, a check or a record failed,
      and there is a sibling to go to. */
  predicate PutsBack(t: Server, plan: Plan, env: Env)
    requires Valid(t) && plan.source.Some?
  {
    && Arrived(t, plan, env).found && !Passes(t, plan, env)
    && GoesHome(Last(t, plan, env), plan.source.value, plan.pane, env.fails)
  }

  /** What a failed application leaves of a pane that was broken out. It is put back with its first
      surviving sibling exactly if `PutsBack`; otherwise it stays where it is, in particular when it
      could not be inspected, and when only the last record failed. A mapping is written exactly if the
      pane passed, or failed only at the agent's mark; it then may name a window that is gone. */
  lemma FailureRestoresIff(t: Server, store: Store, batchId: string, env: Env)
    requires Valid(t) && Applicable(t, store, batchId) && !Current(t, store, batchId).alreadyAdopted
    requires Arrived(t, Current(t, store, batchId), env).broken && !Applied(t, store, batchId, env).ok
    ensures var out, plan := Applied(t, store, batchId, env), Current(t, store, batchId);
      var a, last := Arrived(t, plan, env), Last(t, plan, env);
      && out.store.batches == store.batches
      && (if PutsBack(t, plan, env) then
            var anchor := FirstSurvivor(last, plan.source.value.siblings).value;
            && Valid(out.tmux) && OthersStay(last, out.tmux, plan.pane)
            && anchor in last.panes && anchor != plan.pane
            && WindowOf(out.tmux, plan.pane) == WindowOf(last, anchor)
          else if Passes(t, plan, env) then
            UpdateBatch in env.fails
            && out.tmux == ControlRemoved(last, plan, !HasSession(t, plan.destination), env.fails)
          else out.tmux == last)
      && (if a.found && Verified(plan, PlacementOf(a.tmux, plan.pane)) && RegisterMapping !in env.fails then
            && plan.agentId in out.store.mappings
            && out.store.mappings[plan.agentId].window == WindowOf(a.tmux, plan.pane)
            && (PutsBack(t, plan, env) && env.beforeEnd == [] ==> WindowOf(a.tmux, plan.pane) !in out.tmux.windows)
          else out.store == store)
  {
    hide Valid, Applicable, PlacementRestored, Upserted, Arrived, AfterSteps, GoesHome, KillWindow, Verified,
         FirstSurvivor, OthersStay, BuildPlan;
    var plan := Current(t, store, batchId);
    var a, last := Arrived(t, plan, env), Last(t, plan, env);
    PlanIsNoSibling(t, store, batchId);
    ApplicableIsKnown(t, store, batchId);
    if a.found {
      var m := NewMapping(plan, PlacementOf(a.tmux, plan.pane));
      RestoreGoesHome(last, plan.source.value, plan.pane, env.fails);
      UpsertKeepsRest(store, plan.agentId, m);
      UpsertedWindow(store, plan.agentId, m);
      MarkKeepsRest(Upserted(store, plan.agentId, m), plan, PlacementOf(a.tmux, plan.pane), env.adoptedAt);
      if PutsBack(t, plan, env) && env.beforeEnd == [] && Verified(plan, PlacementOf(a.tmux, plan.pane)) {
        NoSteps(a.tmux);
        VerifiedIsAlone(plan, PlacementOf(a.tmux, plan.pane));
        var out := PlacementRestored(last, plan.source.value, plan.pane, env.fails).tmux;
        SurvivorExists(last, plan.source.value, plan.pane, env.fails);
        EmptiedWindowGoes(a.tmux, out, plan.pane, FirstSurvivor(last, plan.source.value.siblings).value);
      }
    }
  }

  lemma SurvivorExists(t: Server, source: Placement, pane: string, fails: set<Call>)
    requires GoesHome(t, source, pane, fails)
    ensures FirstSurvivor(t, source.siblings).Some?
  {
  }

  lemma NoSteps(t: Server)
    ensures AfterSteps(t, []) == t
  {
  }

  lemma VerifiedIsAlone(plan: Plan, d: Placement)
    requires plan.source.Some? && Verified(plan, d)
    ensures d.siblings == [] && d.session == plan.destination && d.pane == plan.source.value.pane
  {
  }

  lemma UpsertedWindow(store: Store, agentId: string, m: Mapping)
    ensures agentId in Upserted(store, agentId, m).mappings
    ensures Upserted(store, agentId, m).mappings[agentId].window == m.window
  {
  }

  /** A window goes when its only pane has left it. */
  lemma EmptiedWindowGoes(t: Server, t': Server, pane: string, anchor: string)
    requires Valid(t) && Valid(t') && pane in t.panes && anchor in t.panes && anchor != pane
    requires PlacementOf(t, pane).siblings == [] && OthersStay(t, t', pane)
    requires WindowOf(t', pane) == WindowOf(t, anchor)
    ensures WindowOf(t, pane) !in t'.windows
  {
    var w := WindowOf(t, pane);
    NoSiblingsIsAlone(t, pane);
    assert Holds(t, WindowOf(t, anchor), anchor);
    assert WindowOf(t', pane) != w;
    forall q
      ensures !Holds(t', w, q)
    {
      assert Holds(t, w, q) ==> q == pane;
    }
    WindowHasPane(t', w);
  }

  lemma WindowHasPane(t: Server, w: string)
    requires Valid(t)
    ensures w in t.windows ==> exists q :: Holds(t, w, q)
  {
    if w in t.windows {
      assert Holds(t, w, t.windows[w].panes[0]);
    }
  }

  // ----- Owners -----

  ghost predicate Apart(a: Mapping, b: Mapping) {
    a.pane != b.pane && (a.codexSession.Some? ==> a.codexSession != b.codexSession)
  }

  /** No pane and no Codex session has two owners. */
  ghost predicate UniqueOwners(store: Store) {
    forall a, b :: a in store.mappings && b in store.mappings && a != b ==> Apart(store.mappings[a], store.mappings[b])
  }

  /** Another entity has the mapping's pane or session. */
  ghost predicate Clashes(store: Store, agentId: string, m: Mapping) {
    exists id :: id in store.mappings && id != agentId && !Apart(m, store.mappings[id])
  }

  lemma UpsertKeepsOwnersIff(store: Store, agentId: string, m: Mapping)
    requires UniqueOwners(store)
    ensures UniqueOwners(Upserted(store, agentId, m)) <==> !Clashes(store, agentId, m)
  {
    var after := Upserted(store, agentId, m);
    forall a, b | a in after.mappings && b in after.mappings && a != b && a != agentId && b != agentId
      ensures Apart(after.mappings[a], after.mappings[b])
    {
      assert after.mappings[a] == store.mappings[a] && after.mappings[b] == store.mappings[b];
    }
    if UniqueOwners(after) {
      forall id | id in store.mappings && id != agentId
        ensures Apart(m, store.mappings[id])
      {
        assert Apart(after.mappings[agentId], after.mappings[id]);
      }
    } else {
      var a, b :| a in after.mappings && b in after.mappings && a != b && !Apart(after.mappings[a], after.mappings[b]);
      var other := if a == agentId then b else a;
      assert other in store.mappings && !Apart(m, store.mappings[other]);
    }
  }

  lemma FreeDoesNotClash(store: Store, agentId: string, m: Mapping, codexSession: string)
    requires m.pane != "" && m.codexSession == NonEmpty(codexSession)
    requires !OwnedElsewhere(store, agentId, m.pane, codexSession)
    ensures !Clashes(store, agentId, m)
  {
    forall id | id in store.mappings && id != agentId
      ensures Apart(m, store.mappings[id])
    {
      assert !Shares(store.mappings[id], m.pane, codexSession);
    }
  }

  /** An application never gives a pane or a session a second owner, however it ends. */
  lemma ApplyKeepsOwners(t: Server, store: Store, batchId: string, env: Env)
    requires Valid(t) && UniqueOwners(store)
    ensures UniqueOwners(Applied(t, store, batchId, env).store)
  {
    hide Valid, Applicable, Arrived, Clashes, Upserted, OwnedElsewhere, LiveElsewhere, Verified, PlacementRestored,
         UniqueOwners, AfterSteps;
    if Applicable(t, store, batchId) {
      var plan := Current(t, store, batchId);
      PlanIsFree(t, store, batchId);
      if plan.alreadyAdopted {
        RegisterKeepsOwners(store, batchId, plan, plan.source.value, env.adoptedAt);
      } else {
        var a := Arrived(t, plan, env);
        if a.found {
          RegisterKeepsOwners(store, batchId, plan, PlacementOf(a.tmux, plan.pane), env.adoptedAt);
        }
      }
    }
  }

  lemma RegisterKeepsOwners(store: Store, batchId: string, plan: Plan, d: Placement, at: string)
    requires UniqueOwners(store) && batchId in store.batches && plan.agentId in store.agents
    requires d.pane == plan.pane != "" && !OwnedElsewhere(store, plan.agentId, plan.pane, plan.codexSession)
    ensures var registered := Upserted(store, plan.agentId, NewMapping(plan, d));
      && registered.agents == store.agents && registered.batches == store.batches
      && UniqueOwners(registered) && UniqueOwners(Marked(registered, plan, d, at))
      && UniqueOwners(Completed(registered, batchId))
      && UniqueOwners(Completed(Marked(registered, plan, d, at), batchId))
  {
    var m := NewMapping(plan, d);
    FreeDoesNotClash(store, plan.agentId, m, plan.codexSession);
    UpsertKeepsOwnersIff(store, plan.agentId, m);
    UpsertKeepsRest(store, plan.agentId, m);
    var registered := Upserted(store, plan.agentId, m);
    assert UniqueOwners(registered);
    assert Marked(registered, plan, d, at).mappings == registered.mappings;
  }

  /** A rollback reaches the mapping: it is allowed, the pane goes home, and the agent's record is
      written. */
  predicate ReachesMapping(t: Server, store: Store, batchId: string, now: int, meanwhile: seq<Outside>,
                           fails: set<Call>)
    requires Valid(t)
  {
    && Revocable(t, store, batchId, now) && fails !! {Inspect, Layout, RestoreAgent, RestoreMapping}
    && var plan := store.batches[batchId].plan;
       GoesHome(AfterSteps(t, meanwhile), plan.source.value, plan.pane, fails)
  }

  /** A rollback writes back the mapping of the time of the preview. That gives a pane or a session a
      second owner exactly if the rollback gets that far and another entity has come to own one of them
      meanwhile. */
  lemma RollbackKeepsOwnersIff(t: Server, store: Store, batchId: string, now: int, meanwhile: seq<Outside>,
                               fails: set<Call>)
    requires Valid(t) && UniqueOwners(store) && PlansOk(store)
    ensures UniqueOwners(RollbackDone(t, store, batchId, now, meanwhile, fails).store) <==>
      !(ReachesMapping(t, store, batchId, now, meanwhile, fails)
        && store.batches[batchId].plan.mapping.Some?
        && Clashes(store, store.batches[batchId].plan.agentId, store.batches[batchId].plan.mapping.value))
  {
    hide Valid, PlacementRestored, Clashes, UniqueOwners, GoesHome, AfterSteps, MappingRestored;
    if Revocable(t, store, batchId, now) {
      var plan := store.batches[batchId].plan;
      StepsKeepValid(t, meanwhile);
      RestoreGoesHome(AfterSteps(t, meanwhile), plan.source.value, plan.pane, fails);
      RecordKeepsOwnersIff(store, plan, batchId);
      RecordKeepsBatches(store, plan, fails);
    }
  }

  lemma RecordKeepsOwnersIff(store: Store, plan: Plan, batchId: string)
    requires UniqueOwners(store) && batchId in store.batches
    ensures UniqueOwners(AgentRestored(store, plan))
    ensures var restored := MappingRestored(AgentRestored(store, plan), plan);
      && batchId in restored.batches
      && (UniqueOwners(restored) <==> !(plan.mapping.Some? && Clashes(store, plan.agentId, plan.mapping.value)))
      && (UniqueOwners(Revoked(restored, batchId)) <==> UniqueOwners(restored))
  {
    var agents := AgentRestored(store, plan);
    assert UniqueOwners(agents);
    if plan.mapping.Some? {
      UpsertKeepsOwnersIff(agents, plan.agentId, plan.mapping.value);
      assert Clashes(agents, plan.agentId, plan.mapping.value) <==> Clashes(store, plan.agentId, plan.mapping.value);
    }
  }

  // ----- Rollback -----

  /** The stored mapping keeps everything of the snapshot but two fields: an origin that the snapshot
      lacks is the one found, and a writer lease survives only if the mapping found has the same pane. */
  predicate WrittenBack(before: Option<Mapping>, snapshot: Mapping, after: Mapping) {
    && after.pane == snapshot.pane && after.pid == snapshot.pid && after.ticks == snapshot.ticks
    && after.session == snapshot.session && after.window == snapshot.window
    && after.codexSession == snapshot.codexSession
    && after.origin == (if HasOrigin(snapshot) || before.None? then snapshot.origin else before.value.origin)
    && after.writer == (if before.Some? && before.value.pane == snapshot.pane then before.value.writer else None)
  }

  /** The two fields that a rollback may not bring back are as they were. */
  predicate ComesBackWhole(before: Option<Mapping>, snapshot: Mapping) {
    && (HasOrigin(snapshot) || before.None? || before.value.origin == snapshot.origin)
    && snapshot.writer == (if before.Some? && before.value.pane == snapshot.pane then before.value.writer else None)
  }

  lemma MappingComesBackIff(store: Store, agentId: string, snapshot: Mapping)
    ensures var after, before := Upserted(store, agentId, snapshot), MappingFor(store, agentId);
      && agentId in after.mappings && WrittenBack(before, snapshot, after.mappings[agentId])
      && (after.mappings[agentId] == snapshot <==> ComesBackWhole(before, snapshot))
  {
  }

  // ----- Agents' records -----

  /** The snapshot's keys are back, but null and a blank working directory replace nothing, and what the
      snapshot lacks stays. */
  ghost predicate AgentWrittenBack(before: Agent, snapshot: Agent, after: Agent) {
    && after.caller == (before.caller && snapshot.caller)
    && forall k: Key ::
         if k in snapshot.metadata && Overwrites(before.metadata, snapshot.metadata, k) then
           k in after.metadata && after.metadata[k] == snapshot.metadata[k]
         else
           && (k in after.metadata <==> k in before.metadata)
           && (k in before.metadata ==> after.metadata[k] == before.metadata[k])
  }

  /** Nothing has been added to the record since the snapshot, and what changed in it is written back. */
  predicate AgentComesBack(before: Agent, snapshot: Agent) {
    && (before.caller || !snapshot.caller)
    && (forall k :: k in before.metadata ==> k in snapshot.metadata)
    && (forall k :: k in snapshot.metadata ==>
          || Overwrites(before.metadata, snapshot.metadata, k)
          || (k in before.metadata && before.metadata[k] == snapshot.metadata[k]))
  }

  lemma MergeWritesBack(before: Agent, snapshot: Agent)
    ensures AgentWrittenBack(before, snapshot, AgentMerged(before, snapshot))
  {
    hide Overwrites;
  }

  lemma AgentComesBackIff(before: Agent, snapshot: Agent)
    ensures AgentWrittenBack(before, snapshot, AgentMerged(before, snapshot))
    ensures AgentMerged(before, snapshot) == snapshot <==> AgentComesBack(before, snapshot)
  {
    hide Overwrites, AgentMerged;
    MergeWritesBack(before, snapshot);
    if AgentComesBack(before, snapshot) {
      assert AgentMerged(before, snapshot).metadata == snapshot.metadata;
    }
  }

  /** Marking an agent adds the keys of the adoption to what is stored, and changes nothing else. */
  lemma MarkedMetadata(m: Metadata, d: Placement, at: string)
    ensures Merged(m, m + AdoptedKeys(d, at)) == m + AdoptedKeys(d, at)
    ensures TextAt(m + AdoptedKeys(d, at), TmuxPaneId) == d.pane
  {
    hide AdoptedKeys;
    NoAdoptedKeyIsNull(d, at);
    MergedWithMore(m, AdoptedKeys(d, at));
  }

  lemma NoAdoptedKeyIsNull(d: Placement, at: string)
    ensures var keys := AdoptedKeys(d, at);
      && (forall k :: k in keys ==> k != Cwd && keys[k].Some?)
      && TmuxPaneId in keys && keys[TmuxPaneId] == Some(d.pane)
      && NativeTmuxState in keys && keys[NativeTmuxState] == Some("popped_in")
  {
  }

  lemma MergedWithMore(m: Metadata, keys: Metadata)
    requires forall k :: k in keys ==> k != Cwd && keys[k].Some?
    ensures Merged(m, m + keys) == m + keys
  {
    assert forall k :: k in keys ==> Overwrites(m, m + keys, k);
  }

  /** The records after a rollback: the batch is marked, and only the agent's record and mapping are changed.
      The record is back exactly if it has no key that the snapshot lacks; the mapping exactly if no origin
      was added to it and the writer lease is as it was. */
  ghost predicate RecordBack(before: Store, batchId: string, after: Store) {
    && batchId in before.batches && batchId in after.batches
    && SameButFor(before.batches, after.batches, batchId)
    && after.batches[batchId] == before.batches[batchId].(status := RolledBack, rolledBack := true)
    && var plan := before.batches[batchId].plan;
       && SameButFor(before.agents, after.agents, plan.agentId) && plan.agentId in after.agents
       && AgentWrittenBack(AgentFor(before, plan.agentId), plan.agent, after.agents[plan.agentId])
       && (after.agents[plan.agentId] == plan.agent <==> AgentComesBack(AgentFor(before, plan.agentId), plan.agent))
       && SameButFor(before.mappings, after.mappings, plan.agentId)
       && (plan.agentId in after.mappings <==> plan.mapping.Some?)
       && (plan.mapping.Some? ==>
             var now, snapshot := after.mappings[plan.agentId], plan.mapping.value;
             && WrittenBack(MappingFor(before, plan.agentId), snapshot, now)
             && (now == snapshot <==> ComesBackWhole(MappingFor(before, plan.agentId), snapshot)))
  }

  ghost predicate SameButFor<V>(before: map<string, V>, after: map<string, V>, id: string) {
    before - {id} == after - {id}
  }

  lemma RestoredIsBack(store: Store, batchId: string)
    requires batchId in store.batches
    ensures var plan := store.batches[batchId].plan;
      var record := RecordRestored(store, plan, {}).store;
      batchId in record.batches && RecordBack(store, batchId, Revoked(record, batchId))
  {
    hide WrittenBack, ComesBackWhole, Upserted, SameButFor, AgentWrittenBack, AgentComesBack, AgentMerged, AgentFor;
    UpdateKeepsOthers(store.batches, batchId, store.batches[batchId].(status := RolledBack, rolledBack := true));
    var plan := store.batches[batchId].plan;
    var agents, existing := AgentRestored(store, plan), AgentFor(store, plan.agentId);
    UpdateKeepsOthers(store.agents, plan.agentId, AgentMerged(existing, plan.agent));
    AgentComesBackIff(existing, plan.agent);
    if plan.mapping.Some? {
      MappingComesBackIff(agents, plan.agentId, plan.mapping.value);
      UpsertKeepsRest(agents, plan.agentId, plan.mapping.value);
      UpsertKeepsOthers(agents, plan.agentId, plan.mapping.value);
    } else {
      RemovalKeepsOthers(store.mappings, plan.agentId);
    }
  }

  lemma UpdateKeepsOthers<V>(m: map<string, V>, id: string, v: V)
    ensures SameButFor(m, m[id := v], id)
  {
    assert m[id := v] - {id} == m - {id};
  }

  lemma RemovalKeepsOthers<V>(m: map<string, V>, id: string)
    ensures SameButFor(m, m - {id}, id)
  {
    assert (m - {id}) - {id} == m - {id};
  }

  /** A rollback that completes puts the pane in the window of its first surviving sibling, and writes the
      records back as far as `RecordBack` says. */
  lemma RollbackRestores(t: Server, store: Store, batchId: string, now: int, meanwhile: seq<Outside>,
                         fails: set<Call>)
    requires Valid(t) && PlansOk(store) && RollbackDone(t, store, batchId, now, meanwhile, fails).ok
    ensures !store.batches[batchId].rolledBack
    ensures RecordBack(store, batchId, RollbackDone(t, store, batchId, now, meanwhile, fails).store)
    ensures var out, last := RollbackDone(t, store, batchId, now, meanwhile, fails).tmux, AfterSteps(t, meanwhile);
      var plan := store.batches[batchId].plan;
      var anchor := FirstSurvivor(last, plan.source.value.siblings);
      && Valid(last) && Valid(out) && OthersStay(last, out, plan.pane)
      && anchor.Some? && anchor.value in last.panes && plan.pane in last.panes
      && WindowOf(out, plan.pane) == WindowOf(last, anchor.value)
  {
    hide Valid, PlacementRestored, AfterSteps, FirstSurvivor, OthersStay, RecordBack, PlacementOf, MappingRestored,
         AgentRestored, Revoked;
    var plan := store.batches[batchId].plan;
    StepsKeepValid(t, meanwhile);
    RestoreGoesHome(AfterSteps(t, meanwhile), plan.source.value, plan.pane, fails);
    RestoredIsBack(store, batchId);
  }

  lemma UpsertKeepsOthers(store: Store, agentId: string, m: Mapping)
    ensures SameButFor(store.mappings, Upserted(store, agentId, m).mappings, agentId)
  {
    var after := Upserted(store, agentId, m).mappings;
    assert after - {agentId} == store.mappings - {agentId};
  }
}
