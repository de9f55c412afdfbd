/** What plans, adoptions and rollbacks put on record, field by field, and exactly when they go ahead. */
module AdoptionRecords {
  import opened Options
  import opened Tmux
  import opened Adoption
  import opened AdoptionLaws

  // ----- Where a pane is -----

  /** The placement says where the pane is: its window, the session and the name of that, its process, and the
      other panes of the window in their order. */
  ghost predicate IsPlacedAt(d: Placement, t: Server, pane: string) {
    && Holds(t, d.window, pane) && pane in t.panes
    && d.pane == pane && d.process == t.panes[pane]
    && d.session == t.windows[d.window].session && d.windowName == t.windows[d.window].name
    && exists i :: LeavesOut(d.siblings, t.windows[d.window].panes, i) && t.windows[d.window].panes[i] == pane
  }

  predicate LeavesOut(rest: seq<string>, all: seq<string>, i: int) {
    0 <= i < |all| && rest == all[..i] + all[i + 1..]
  }

  lemma {:induction false} WithoutLeavesOut(s: seq<string>, p: string) returns (i: nat)
    requires p in s && NoRepeats(s)
    ensures LeavesOut(Without(s, p), s, i) && s[i] == p
  {
    if s[0] == p {
      i := 0;
      NothingToLeaveOut(s[1..], p);
    } else {
      i := WithoutLeavesOut(s[1..], p);
      i := i + 1;
      assert s[..i] == [s[0]] + s[1..][..i - 1] && s[i + 1..] == s[1..][i..];
    }
  }

  lemma {:induction false} NothingToLeaveOut(s: seq<string>, p: string)
    requires p !in s
    ensures Without(s, p) == s
  {
    if s != [] {
      NothingToLeaveOut(s[1..], p);
    }
  }

  lemma PlacementIsThere(t: Server, pane: string)
    requires Valid(t) && pane in t.panes
    ensures IsPlacedAt(PlacementOf(t, pane), t, pane)
  {
    var i := WithoutLeavesOut(t.windows[WindowOf(t, pane)].panes, pane);
  }

  // ----- Plans -----

  /** The key is missing, null or empty. */
  predicate Lacks(m: Metadata, k: Key) { k !in m || m[k] == None || m[k] == Some("") }

  /** The text of the first of the keys that has one; empty if none has. */
  ghost predicate IsFirstText(m: Metadata, keys: seq<Key>, text: string) {
    if text == "" then forall i :: 0 <= i < |keys| ==> Lacks(m, keys[i])
    else exists i: nat :: IsFirstAt(m, keys, i, text)
  }

  predicate IsFirstAt(m: Metadata, keys: seq<Key>, i: nat, text: string) {
    i < |keys| && keys[i] in m && m[keys[i]] == Some(text) && forall j :: 0 <= j < i ==> Lacks(m, keys[j])
  }

  const SESSION_KEYS: seq<Key> := [ForkSession, LastResumeSession, CodexSession, CodexThread]

  lemma SessionIsFirst(a: Agent)
    ensures IsFirstText(a.metadata, SESSION_KEYS, CodexSessionOf(a))
  {
    var keys, m := SESSION_KEYS, a.metadata;
    assert keys[0] == ForkSession && keys[1] == LastResumeSession && keys[2] == CodexSession && keys[3] == CodexThread;
    var text := CodexSessionOf(a);
    if text != "" {
      assert IsFirstAt(m, keys, 0, text) || IsFirstAt(m, keys, 1, text) || IsFirstAt(m, keys, 2, text)
        || IsFirstAt(m, keys, 3, text);
    }
  }

  /** The mapping that the store has for the agent, if it has one. */
  predicate IsEarlier(mapping: Option<Mapping>, store: Store, agentId: string) {
    match mapping
    case None => agentId !in store.mappings
    case Some(m) => agentId in store.mappings && store.mappings[agentId] == m
  }

  ghost predicate IsInSession(t: Server, pane: string, session: string) {
    exists w :: Holds(t, w, pane) && t.windows[w].session == session
  }

  /** What a plan is made of. */
  ghost predicate Describes(plan: Plan, t: Server, store: Store, r: Request) {
    && r.agentId in store.agents && plan.agent == store.agents[r.agentId] && plan.agentId == r.agentId
    && plan.destination == r.destination && plan.windowName == r.windowName
    && IsEarlier(plan.mapping, store, r.agentId)
    && IsFirstText(plan.agent.metadata, SESSION_KEYS, plan.codexSession)
    && (r.pane != "" ==> plan.pane == r.pane)
    && (r.pane == "" && !Lacks(plan.agent.metadata, TmuxPaneId) ==>
          plan.agent.metadata[TmuxPaneId] == Some(plan.pane))
    && (r.pane == "" && Lacks(plan.agent.metadata, TmuxPaneId) ==>
          plan.pane == (if plan.mapping.None? then "" else plan.mapping.value.pane))
    && (r.origin != "" ==> plan.origin == r.origin)
    && (r.origin == "" && plan.mapping.Some? && plan.mapping.value.origin.Some? ==>
          plan.mapping.value.origin == Some(plan.origin))
    && (r.origin == "" && (plan.mapping.None? || plan.mapping.value.origin.None?) ==> plan.origin == "")
    && (plan.source == None <==> plan.pane !in t.panes)
    && (plan.source.Some? ==> IsPlacedAt(plan.source.value, t, plan.pane))
    && (plan.alreadyAdopted <==> IsInSession(t, plan.pane, r.destination))
  }

  lemma PlanDescribes(t: Server, store: Store, r: Request)
    requires Valid(t)
    ensures BuildPlan(t, store, r).None? <==> r.agentId !in store.agents
    ensures BuildPlan(t, store, r).Some? ==> Describes(BuildPlan(t, store, r).value, t, store, r)
  {
    hide Valid, SourceBlocked, ClaimedElsewhere, OwnedElsewhere, IsPlacedAt, CodexSessionOf, AliasOf, IsFirstText;
    if r.agentId in store.agents {
      var plan := BuildPlan(t, store, r).value;
      SessionIsFirst(plan.agent);
      if plan.pane in t.panes {
        PlacementIsThere(t, plan.pane);
        var w := WindowOf(t, plan.pane);
        assert Holds(t, w, plan.pane);
      } else {
        NowhereHeld(t, plan.pane);
      }
    }
  }

  lemma NowhereHeld(t: Server, pane: string)
    requires Valid(t) && pane !in t.panes
    ensures forall w :: !Holds(t, w, pane)
  {
  }

  /** Nobody else has the pane or the Codex session: no other mapping, no other agent except the aliases of
      this one, and no process in another pane. */
  ghost predicate IsFree(t: Server, store: Store, plan: Plan) {
    && (forall id :: id in store.mappings && id != plan.agentId ==>
          store.mappings[id].pane != plan.pane && store.mappings[id].codexSession != Some(plan.codexSession))
    && (forall id :: id in store.agents && id != plan.agentId ==>
          || !IsFirstText(store.agents[id].metadata, SESSION_KEYS, plan.codexSession)
          || IsFirstText(store.agents[id].metadata, [RuntimeAliasOf], plan.agentId))
    && (forall p :: p in t.panes && p != plan.pane ==> plan.codexSession !in t.panes[p].sessions)
  }

  /** The pane runs the agent's session as far as can be seen, and has company exactly if it is not yet where
      it is to go. */
  ghost predicate IsAdoptable(t: Server, plan: Plan) {
    && plan.pane in t.panes
    && (t.panes[plan.pane].sessions == {} || plan.codexSession in t.panes[plan.pane].sessions)
    && forall w :: Holds(t, w, plan.pane) ==>
         (t.windows[w].session == plan.destination <==> t.windows[w].panes == [plan.pane])
  }

  /** Exactly when a plan is not blocked. */
  ghost predicate MayGoAhead(t: Server, store: Store, plan: Plan) {
    && plan.agent.caller && Lacks(plan.agent.metadata, RuntimeAliasOf)
    && plan.codexSession != "" && plan.pane != ""
    && IsAdoptable(t, plan) && IsFree(t, store, plan)
    && (plan.mapping.Some? ==> plan.mapping.value.writer == None)
    && plan.destination != "" && plan.destination != plan.origin
  }

  lemma BlockedIff(t: Server, store: Store, r: Request)
    requires Valid(t) && BuildPlan(t, store, r).Some?
    ensures var plan := BuildPlan(t, store, r).value;
      plan.blocked <==> !MayGoAhead(t, store, plan)
  {
    hide Valid, SourceBlocked, ClaimedElsewhere, OwnedElsewhere, CodexSessionOf, IsFirstText, IsAdoptable, IsFree,
      LiveElsewhere;
    var plan := BuildPlan(t, store, r).value;
    if plan.codexSession != "" && plan.pane != "" {
      AdoptableIff(t, plan);
      FreeIff(t, store, plan);
    }
  }

  lemma AdoptableIff(t: Server, plan: Plan)
    requires Valid(t) && plan.source == if plan.pane in t.panes then Some(PlacementOf(t, plan.pane)) else None
    ensures SourceBlocked(t, plan.source, plan.pane, plan.codexSession, plan.destination) <==>
      !IsAdoptable(t, plan) || LiveElsewhere(t, plan.pane, plan.codexSession)
  {
    hide LiveElsewhere;
    if plan.pane in t.panes {
      var w := WindowOf(t, plan.pane);
      var panes := t.windows[w].panes;
      if panes == [plan.pane] {
        assert Without(panes[1..], plan.pane) == [];
      } else if Without(panes, plan.pane) == [] {
        AloneIfNoSiblings(panes, plan.pane);
      }
    }
  }

  lemma FreeIff(t: Server, store: Store, plan: Plan)
    requires plan.codexSession != "" && plan.pane != ""
    ensures IsFree(t, store, plan) <==>
      && !LiveElsewhere(t, plan.pane, plan.codexSession)
      && !ClaimedElsewhere(store, plan.agentId, plan.codexSession)
      && !OwnedElsewhere(store, plan.agentId, plan.pane, plan.codexSession)
  {
    hide CodexSessionOf, IsFirstText;
    forall id | id in store.agents
      ensures Claims(store.agents[id], plan.agentId, plan.codexSession) <==>
        && IsFirstText(store.agents[id].metadata, SESSION_KEYS, plan.codexSession)
        && !IsFirstText(store.agents[id].metadata, [RuntimeAliasOf], plan.agentId)
    {
      SessionIff(store.agents[id], plan.codexSession);
      AliasIsFirst(store.agents[id], plan.agentId);
    }
  }

  lemma AliasIsFirst(a: Agent, text: string)
    ensures IsFirstText(a.metadata, [RuntimeAliasOf], text) <==> AliasOf(a) == text
  {
    var keys := [RuntimeAliasOf];
    assert keys[0] == RuntimeAliasOf;
    if AliasOf(a) == text != "" {
      assert IsFirstAt(a.metadata, keys, 0, text);
    }
  }

  lemma SessionIff(a: Agent, text: string)
    ensures IsFirstText(a.metadata, SESSION_KEYS, text) <==> CodexSessionOf(a) == text
  {
    hide CodexSessionOf, IsFirstText;
    SessionIsFirst(a);
    if IsFirstText(a.metadata, SESSION_KEYS, text) {
      FirstIsUnique(a.metadata, SESSION_KEYS, CodexSessionOf(a), text);
    }
  }

  lemma FirstIsUnique(m: Metadata, keys: seq<Key>, a: string, b: string)
    requires IsFirstText(m, keys, a) && IsFirstText(m, keys, b)
    ensures a == b
  {
    if a != "" && b != "" {
      var i: nat :| IsFirstAt(m, keys, i, a);
      var j: nat :| IsFirstAt(m, keys, j, b);
    }
  }

  // ----- Records -----

  /** The mapping says where the pane is and which process it runs, and has the plan's Codex session. Its origin
      is the plan's, or the earlier one if the plan has none; the writer lease is kept exactly if the earlier
      mapping had the same pane. */
  ghost predicate IsRecordOf(m: Mapping, earlier: Option<Mapping>, plan: Plan, t: Server) {
    && m.pane == plan.pane && plan.pane in t.panes
    && Holds(t, m.window, plan.pane) && m.session == t.windows[m.window].session
    && m.pid == t.panes[plan.pane].pid && m.ticks == t.panes[plan.pane].ticks
    && m.codexSession == Some(plan.codexSession)
    && (plan.origin != "" ==> m.origin == Some(plan.origin))
    && (plan.origin == "" ==> m.origin == if earlier.Some? then earlier.value.origin else None)
    && (earlier.Some? && earlier.value.pane == plan.pane ==> m.writer == earlier.value.writer)
    && (earlier.None? || earlier.value.pane != plan.pane ==> m.writer == None)
  }

  /** Only the agent's mapping is new, and it is a record of where the pane is. */
  ghost predicate IsMapped(before: Store, after: Store, plan: Plan, t: Server) {
    && plan.agentId in after.mappings
    && after.mappings == before.mappings[plan.agentId := after.mappings[plan.agentId]]
    && exists earlier ::
         IsEarlier(earlier, before, plan.agentId) && IsRecordOf(after.mappings[plan.agentId], earlier, plan, t)
  }

  /** Only the agent's own record is new. It is a caller, and its metadata agrees with its mapping and with the
      name of the window; all other keys are as they were. */
  ghost predicate IsMarked(before: Store, after: Store, plan: Plan, t: Server, at: string) {
    && plan.agentId in before.agents && plan.agentId in after.agents && plan.agentId in after.mappings
    && after.agents == before.agents[plan.agentId := after.agents[plan.agentId]]
    && var m, was, now := after.mappings[plan.agentId], before.agents[plan.agentId].metadata,
                          after.agents[plan.agentId].metadata;
       && after.agents[plan.agentId].caller && m.window in t.windows
       && now == was[TmuxPaneId := Some(m.pane)][TmuxSession := Some(m.session)][TmuxWindowId := Some(m.window)]
                    [TmuxWindowName := Some(t.windows[m.window].name)]
                    [NativeTmuxState := Some("popped_in")][NativeTmuxAdoptedAt := Some(at)]
  }

  /** Only the batch's status is new. */
  ghost predicate IsCompleted(before: Store, after: Store, batchId: string) {
    && batchId in before.batches
    && after.batches == before.batches[batchId := before.batches[batchId].(status := Complete)]
  }

  lemma UpsertedIsMapped(t: Server, store: Store, plan: Plan)
    requires Valid(t) && plan.pane in t.panes && plan.codexSession != ""
    ensures IsMapped(store, Upserted(store, plan.agentId, NewMapping(plan, PlacementOf(t, plan.pane))), plan, t)
  {
    hide Valid;
    var earlier := MappingFor(store, plan.agentId);
    assert IsEarlier(earlier, store, plan.agentId);
    var m := Upserted(store, plan.agentId, NewMapping(plan, PlacementOf(t, plan.pane))).mappings[plan.agentId];
    assert IsRecordOf(m, earlier, plan, t);
  }

  lemma MarkedIsMarked(t: Server, store: Store, plan: Plan, at: string)
    requires Valid(t) && plan.pane in t.panes && plan.agentId in store.agents && plan.agentId in store.mappings
    requires var m := store.mappings[plan.agentId];
      m.pane == plan.pane && Holds(t, m.window, plan.pane) && m.session == t.windows[m.window].session
    ensures IsMarked(store, Marked(store, plan, PlacementOf(t, plan.pane), at), plan, t, at)
  {
    hide Valid, Merged;
    var d := PlacementOf(t, plan.pane);
    MarkedMetadata(store.agents[plan.agentId].metadata, d, at);
  }

  /** The value of a key; None if there is none. */
  function At(m: Metadata, k: Key): Option<Option<string>> { if k in m then Some(m[k]) else None }

  /** Registering a known agent: a key has its new value if that is not null, and what it had otherwise. An empty
      working directory does not replace one that is not empty. */
  lemma MergeMeans(existing: Metadata, m: Metadata, k: Key)
    ensures At(Merged(existing, m), k) ==
      if k !in m || m[k] == None || (k == Cwd && m[k] == Some("") && !Lacks(existing, Cwd)) then At(existing, k)
      else Some(m[k])
  {
  }

  // ----- Applications -----

  /** The process is still the one it was. */
  predicate IsSameProcess(a: Process, b: Process) { a.pid == b.pid && a.ticks == b.ticks && a.cwd == b.cwd }

  /** The pane is where it was, in the same window of the same name and session, with the same process. */
  ghost predicate IsUnmoved(t: Server, d: Placement, pane: string) {
    && pane in t.panes && pane == d.pane && IsSameProcess(t.panes[pane], d.process)
    && Holds(t, d.window, pane) && t.windows[d.window].session == d.session && t.windows[d.window].name == d.windowName
  }

  lemma SignatureIff(t: Server, pane: string, d: Placement)
    requires Valid(t) && pane in t.panes
    ensures SameSignature(Some(PlacementOf(t, pane)), Some(d)) <==> IsUnmoved(t, d, pane)
  {
  }

  /** Exactly when a batch is applied at all: it is a preview that was not blocked, the plan made anew is not
      blocked either, and the pane has not been moved or restarted since. */
  lemma ApplicableIff(t: Server, store: Store, batchId: string)
    requires Valid(t)
    ensures Applicable(t, store, batchId) <==>
      && batchId in store.batches && store.batches[batchId].status == Previewed && !store.batches[batchId].plan.blocked
      && var plan := store.batches[batchId].plan;
         var current := BuildPlan(t, store, RequestOf(plan));
         && current.Some? && MayGoAhead(t, store, current.value)
         && plan.source.Some? && IsUnmoved(t, plan.source.value, current.value.pane)
  {
    hide Valid, BuildPlan, MayGoAhead, SameSignature, IsUnmoved;
    if batchId in store.batches {
      var plan := store.batches[batchId].plan;
      var r := RequestOf(plan);
      if BuildPlan(t, store, r).Some? {
        BlockedIff(t, store, r);
        SourceIsPlacement(t, store, r);
        var current := BuildPlan(t, store, r).value;
        if current.source.Some? && plan.source.Some? {
          SignatureIff(t, current.pane, plan.source.value);
        }
      }
    }
  }

  /** A batch that is not applied changes nothing and is reported as refused. */
  lemma RefusedChangesNothing(t: Server, store: Store, batchId: string, env: Env)
    requires Valid(t)
    requires !Applicable(t, store, batchId)
    ensures Applied(t, store, batchId, env) == Outcome(t, store, false)
  {
  }

  lemma SourceIsPlacement(t: Server, store: Store, r: Request)
    requires Valid(t) && BuildPlan(t, store, r).Some?
    ensures var plan := BuildPlan(t, store, r).value;
      && plan.source == (if plan.pane in t.panes then Some(PlacementOf(t, plan.pane)) else None)
      && (MayGoAhead(t, store, plan) ==> plan.pane in t.panes)
    ensures forall a: Option<Placement>, b: Option<Placement> :: a.None? != b.None? ==> !SameSignature(a, b)
  {
    hide Valid, PlacementOf, SourceBlocked, ClaimedElsewhere, OwnedElsewhere, CodexSessionOf, IsFree;
  }

  /** What an application works from: the plan made anew for what the batch asks for. */
  lemma CurrentDescribes(t: Server, store: Store, batchId: string)
    requires Valid(t) && Applicable(t, store, batchId)
    ensures var plan, planned := Current(t, store, batchId), store.batches[batchId].plan;
      && Describes(plan, t, store,
                   Request(planned.agentId, planned.pane, planned.destination, planned.windowName, planned.origin))
      && MayGoAhead(t, store, plan)
  {
    hide Valid, BuildPlan, MayGoAhead, Describes, SameSignature;
    var r := RequestOf(store.batches[batchId].plan);
    ApplicableIff(t, store, batchId);
    PlanDescribes(t, store, r);
  }

  /** The pane is alone in a window of the destination, with the process it had at the start, which runs the
      agent's session as far as can be seen. */
  ghost predicate ArrivedAsPlanned(t: Server, plan: Plan, now: Server) {
    && plan.pane in t.panes && plan.pane in now.panes
    && IsSameProcess(now.panes[plan.pane], t.panes[plan.pane])
    && (exists w ::
          w in now.windows && now.windows[w].panes == [plan.pane] && now.windows[w].session == plan.destination)
    && (now.panes[plan.pane].sessions == {} || plan.codexSession in now.panes[plan.pane].sessions)
  }

  lemma VerifiedIff(t: Server, plan: Plan, now: Server)
    requires Valid(t) && Valid(now) && plan.pane in t.panes && plan.pane in now.panes
    requires plan.source == Some(PlacementOf(t, plan.pane))
    ensures Verified(plan, PlacementOf(now, plan.pane)) <==> ArrivedAsPlanned(t, plan, now)
  {
    var w := WindowOf(now, plan.pane);
    var panes := now.windows[w].panes;
    if panes == [plan.pane] {
      assert Without(panes[1..], plan.pane) == [];
    } else if Without(panes, plan.pane) == [] {
      AloneIfNoSiblings(panes, plan.pane);
    }
    forall v | v in now.windows && now.windows[v].panes == [plan.pane]
      ensures v == w
    {
      assert plan.pane in now.windows[v].panes;
      assert Holds(now, v, plan.pane);
    }
  }

  /** The store after an application: which of the mapping, the agent's record and the batch's status are new. */
  ghost predicate StoreIs(before: Store, after: Store, batchId: string, plan: Plan, t: Server, at: string,
                          mapped: bool, marked: bool, done: bool) {
    && (if mapped then IsMapped(before, after, plan, t) else after.mappings == before.mappings)
    && (if marked then IsMarked(before, after, plan, t, at) else after.agents == before.agents)
    && (if done then IsCompleted(before, after, batchId) else after.batches == before.batches)
  }

  /** What any application puts on record. If the pane is already in its place, it is registered there. Otherwise
      the pane is broken out and inspected; if it has arrived as planned, its mapping is written, then the agent
      is marked, then the batch is complete. It completes exactly if no step on this way fails. */
  lemma ApplicationRecords(t: Server, store: Store, batchId: string, env: Env)
    requires Valid(t) && Applicable(t, store, batchId)
    ensures var out, plan, f := Applied(t, store, batchId, env), Current(t, store, batchId), env.fails;
      if IsInSession(t, plan.pane, plan.destination) then
        && out.tmux == t && (out.ok <==> f !! {RegisterMapping, UpdateBatch})
        && StoreIs(store, out.store, batchId, plan, t, env.adoptedAt, RegisterMapping !in f, false, out.ok)
      else
        var a := Arrived(t, plan, env);
        var arrived := a.found && ArrivedAsPlanned(t, plan, a.tmux);
        && (out.ok <==> arrived && f !! {RegisterMapping, MarkAgent, UpdateBatch})
        && StoreIs(store, out.store, batchId, plan, a.tmux, env.adoptedAt, arrived && RegisterMapping !in f,
                   arrived && f !! {RegisterMapping, MarkAgent}, out.ok)
  {
    hide Valid, Applicable, BuildPlan, Arrived, Settled, MayGoAhead, IsMapped, Upserted, Holds;
    CurrentDescribes(t, store, batchId);
    PlanIsFree(t, store, batchId);
    var plan := Current(t, store, batchId);
    if plan.alreadyAdopted {
      RegisteredRecords(t, store, batchId, plan, env);
    } else {
      var a := Arrived(t, plan, env);
      if a.found {
        VerifiedIff(t, plan, a.tmux);
        SettledRecords(a.tmux, store, batchId, plan, !HasSession(t, plan.destination), env);
      }
    }
  }

  lemma RegisteredRecords(t: Server, store: Store, batchId: string, plan: Plan, env: Env)
    requires Valid(t) && plan.pane in t.panes && plan.source == Some(PlacementOf(t, plan.pane))
    requires plan.agentId in store.agents && batchId in store.batches && plan.codexSession != ""
    ensures var out, f := Registered(t, store, batchId, plan, env.fails), env.fails;
      && out.tmux == t && (out.ok <==> f !! {RegisterMapping, UpdateBatch})
      && StoreIs(store, out.store, batchId, plan, t, env.adoptedAt, RegisterMapping !in f, false, out.ok)
  {
    hide Valid, PlacementOf, Upserted;
    UpsertedIsMapped(t, store, plan);
    UpsertKeepsRest(store, plan.agentId, NewMapping(plan, PlacementOf(t, plan.pane)));
  }

  lemma SettledRecords(t: Server, store: Store, batchId: string, plan: Plan, created: bool, env: Env)
    requires Valid(t) && plan.pane in t.panes && plan.source.Some?
    requires plan.agentId in store.agents && batchId in store.batches && plan.codexSession != ""
    ensures var out, f := Settled(t, store, batchId, plan, created, env), env.fails;
      var arrived := Verified(plan, PlacementOf(t, plan.pane));
      && (out.ok <==> arrived && f !! {RegisterMapping, MarkAgent, UpdateBatch})
      && StoreIs(store, out.store, batchId, plan, t, env.adoptedAt, arrived && RegisterMapping !in f,
                 arrived && f !! {RegisterMapping, MarkAgent}, out.ok)
  {
    hide Valid, PlacementOf, Upserted, Verified, Marked, PlacementRestored, AfterSteps, KillWindow;
    var d := PlacementOf(t, plan.pane);
    var registered := Upserted(store, plan.agentId, NewMapping(plan, d));
    UpsertedIsMapped(t, store, plan);
    UpsertKeepsRest(store, plan.agentId, NewMapping(plan, d));
    MarkedIsMarked(t, registered, plan, env.adoptedAt);
    MarkKeepsRest(registered, plan, d, env.adoptedAt);
  }

  // ----- Rollbacks -----

  /** A start time that is missing or zero says nothing about the process. */
  predicate MayBe(process: Process, recorded: Process) {
    && process.pid == recorded.pid
    && (recorded.ticks in {None, Some(0)} || process.ticks == recorded.ticks)
  }

  /** The batch may be rolled back: it has not been yet and is not past its retention, and its pane still runs the
      recorded process and is in the session that it was adopted into. */
  ghost predicate MayGoBack(t: Server, store: Store, batchId: string, now: int) {
    && batchId in store.batches && !store.batches[batchId].rolledBack && now <= store.batches[batchId].retentionUntil
    && var plan := store.batches[batchId].plan;
       && plan.source.Some? && plan.pane in t.panes && MayBe(t.panes[plan.pane], plan.source.value.process)
       && IsInSession(t, plan.pane, plan.destination)
  }

  lemma RevocableIff(t: Server, store: Store, batchId: string, now: int)
    requires Valid(t)
    ensures Revocable(t, store, batchId, now) <==> MayGoBack(t, store, batchId, now)
  {
    hide Valid;
    if batchId in store.batches && store.batches[batchId].plan.pane in t.panes {
      assert Holds(t, WindowOf(t, store.batches[batchId].plan.pane), store.batches[batchId].plan.pane);
    }
  }

  /** A sibling of the pane has survived, and so has the pane. */
  predicate HasCompany(t: Server, plan: Plan)
    requires plan.source.Some?
  {
    plan.pane in t.panes && exists q :: q in plan.source.value.siblings && q in t.panes
  }

  lemma GoesHomeIff(t: Server, plan: Plan, fails: set<Call>)
    requires plan.source.Some?
    ensures GoesHome(t, plan.source.value, plan.pane, fails) <==> HasCompany(t, plan) && Join !in fails
  {
    hide FirstSurvivor;
    SurvivorIsFirst(t, plan.source.value.siblings);
  }

  /** An agent that is unknown by now is registered with the snapshot's role and all its keys that are not null. */
  lemma UnknownAgentReturns(store: Store, plan: Plan, k: Key)
    requires plan.agentId !in store.agents
    ensures var after := AgentRestored(store, plan).agents;
      && plan.agentId in after && after[plan.agentId].caller == plan.agent.caller
      && At(after[plan.agentId].metadata, k) ==
           if k in plan.agent.metadata && plan.agent.metadata[k] != None then Some(plan.agent.metadata[k]) else None
  {
    MergeMeans(map[], plan.agent.metadata, k);
  }

  /** How a rollback ends. One that may not go back changes nothing. Otherwise it completes exactly if the pane
      and a sibling are still there and no step fails; and of the records, each is written exactly if no step up
      to it fails: the agent's, then its mapping, then the mark of the batch. */
  lemma RollbackEnds(t: Server, store: Store, batchId: string, now: int, meanwhile: seq<Outside>, fails: set<Call>)
    requires Valid(t) && PlansOk(store)
    ensures var out := RollbackDone(t, store, batchId, now, meanwhile, fails);
      if Inspect in fails || !MayGoBack(t, store, batchId, now) then out == Outcome(t, store, false)
      else
        var placed := HasCompany(AfterSteps(t, meanwhile), store.batches[batchId].plan) && fails !! {Join, Layout};
        && (out.ok <==> placed && fails !! {RestoreAgent, RestoreMapping, UpdateBatch})
        && (!placed || RestoreAgent in fails ==> out.store == store)
        && (RestoreMapping in fails ==> out.store.mappings == store.mappings)
        && (!out.ok ==> out.store.batches == store.batches)
  {
    hide Valid, Revocable, MayGoBack, PlacementRestored, AfterSteps, HasCompany, GoesHome, Upserted, AgentMerged;
    RevocableIff(t, store, batchId, now);
    if Revocable(t, store, batchId, now) {
      RevocableIsKnown(t, store, batchId, now);
      var plan := store.batches[batchId].plan;
      var last := AfterSteps(t, meanwhile);
      StepsKeepValid(t, meanwhile);
      GoesHomeIff(last, plan, fails);
      RestoreGoesHome(last, plan.source.value, plan.pane, fails);
      RecordKeepsBatches(store, plan, fails);
    }
  }
}
