/** What adoptions and rollbacks keep over whole runs. */
module AdoptionRuns {
  import opened Options
  import opened Tmux
  import opened Adoption
  import opened AdoptionLaws

  datatype World = World(tmux: Server, store: Store)

  datatype Event =
    | Preview(request: Request, batchId: string, retentionUntil: int)
    | Apply(id: string, env: Env)
    | Rollback(id: string, now: int, meanwhile: seq<Outside>, fails: set<Call>)
    | Other(step: Outside)

  function Result(w: World, e: Event): Outcome
    requires Valid(w.tmux)
  {
    match e
    case Preview(r, batchId, until) =>
      var plan := BuildPlan(w.tmux, w.store, r);
      if plan.None? then Outcome(w.tmux, w.store, false)
      else Outcome(w.tmux, Recorded(w.store, batchId, plan.value, until), true)
    case Apply(id, env) => Applied(w.tmux, w.store, id, env)
    case Rollback(id, now, meanwhile, fails) => RollbackDone(w.tmux, w.store, id, now, meanwhile, fails)
    case Other(step) => Outcome(AfterStep(w.tmux, step), w.store, true)
  }

  function Next(w: World, e: Event): World
    requires Valid(w.tmux)
  {
    World(Result(w, e).tmux, Result(w, e).store)
  }

  ghost predicate InOrder(w: World) { Valid(w.tmux) && PlansOk(w.store) }

  /** Batch ids are new. */
  predicate Fresh(w: World, e: Event) { e.Preview? ==> e.batchId !in w.store.batches }

  // ----- Every pane in one window -----

  lemma PreviewKeepsInOrder(w: World, e: Event)
    requires InOrder(w) && e.Preview?
    ensures InOrder(Next(w, e)) && Next(w, e).tmux == w.tmux
  {
    hide Valid, BuildPlan;
    var plan := BuildPlan(w.tmux, w.store, e.request);
    if plan.Some? && plan.value.source.Some? {
      PreviewedIsNoSibling(w.tmux, w.store, e.request);
    }
  }

  /** The batches after an application: only the applied one may change, and it keeps its plan. */
  lemma ApplyKeepsBatches(t: Server, store: Store, batchId: string, env: Env)
    requires Valid(t)
    ensures var after := Applied(t, store, batchId, env).store.batches;
      && after.Keys == store.batches.Keys
      && forall b :: b in store.batches ==>
           && after[b].plan == store.batches[b].plan && after[b].rolledBack == store.batches[b].rolledBack
           && after[b].retentionUntil == store.batches[b].retentionUntil
           && (b != batchId ==> after[b] == store.batches[b])
  {
    hide Valid, Arrived, Verified, PlacementRestored, Upserted, Marked, BuildPlan, SameSignature, PlacementOf,
         KillWindow, AfterSteps;
    if Applicable(t, store, batchId) {
      var plan := Current(t, store, batchId);
      if plan.alreadyAdopted {
        UpsertKeepsRest(store, plan.agentId, NewMapping(plan, plan.source.value));
      } else {
        var a := Arrived(t, plan, env);
        if a.found {
          var m := NewMapping(plan, PlacementOf(a.tmux, plan.pane));
          UpsertKeepsRest(store, plan.agentId, m);
          MarkKeepsRest(Upserted(store, plan.agentId, m), plan, PlacementOf(a.tmux, plan.pane), env.adoptedAt);
        }
      }
    }
  }

  /** The service removes the control window: of a session it made itself, once the pane has passed. */
  predicate RemovesControl(t: Server, plan: Plan, env: Env)
    requires Valid(t) && plan.source.Some?
  {
    !plan.alreadyAdopted && !HasSession(t, plan.destination) && Passes(t, plan, env) && RemoveControl !in env.fails
  }

  /** The panes after an application: all that were there after the last outside change, except those
      in the control window if that is removed. */
  lemma ApplyKeepsPanes(t: Server, store: Store, batchId: string, env: Env)
    requires Valid(t) && Applicable(t, store, batchId) && !Current(t, store, batchId).alreadyAdopted
    ensures var out, plan := Applied(t, store, batchId, env).tmux, Current(t, store, batchId);
      var last := Last(t, plan, env);
      && Valid(out)
      && (forall q :: q in out.panes ==> q in last.panes && out.panes[q] == last.panes[q])
      && (forall w, q :: Holds(last, w, q) ==>
            (q !in out.panes <==> RemovesControl(t, plan, env) && Named(last, plan.destination, CONTROL) == {w}))
  {
    hide Valid, Applicable, Arrived, KillWindow, PlacementRestored, Verified, Named, Upserted, Holds, AfterSteps,
         HasSession, BuildPlan, GoesHome;
    var plan := Current(t, store, batchId);
    var last := Last(t, plan, env);
    PlanIsNoSibling(t, store, batchId);
    ApplicableIsKnown(t, store, batchId);
    RestoreGoesHome(last, plan.source.value, plan.pane, env.fails);
    KillWindowWorks(last, plan.destination, CONTROL);
    HeldArePanes(last);
    HeldArePanes(KillWindow(last, plan.destination, CONTROL));
    PanesAreHeld(KillWindow(last, plan.destination, CONTROL));
    HeldOnce(last);
  }

  lemma HeldArePanes(t: Server)
    requires Valid(t)
    ensures forall w, q :: Holds(t, w, q) ==> q in t.panes
  {
  }

  lemma PanesAreHeld(t: Server)
    requires Valid(t)
    ensures forall q :: q in t.panes ==> exists w :: Holds(t, w, q)
  {
  }

  lemma HeldOnce(t: Server)
    requires Valid(t)
    ensures forall v, w, q :: Holds(t, v, q) && Holds(t, w, q) ==> v == w
  {
  }

  lemma ApplyKeepsValid(t: Server, store: Store, batchId: string, env: Env)
    requires Valid(t)
    ensures Valid(Applied(t, store, batchId, env).tmux)
  {
    hide Valid, Applicable, Moved;
    if Applicable(t, store, batchId) && !Current(t, store, batchId).alreadyAdopted {
      ApplyKeepsPanes(t, store, batchId, env);
    }
  }

  lemma EventKeepsInOrder(w: World, e: Event)
    requires InOrder(w)
    ensures InOrder(Next(w, e))
  {
    hide Valid, Applied, RollbackDone, AfterStep, BuildPlan;
    match e
    case Preview(_, _, _) => PreviewKeepsInOrder(w, e);
    case Apply(id, env) =>
      ApplyKeepsValid(w.tmux, w.store, id, env);
      ApplyKeepsBatches(w.tmux, w.store, id, env);
    case Rollback(id, now, meanwhile, fails) => RollbackKeepsInOrder(w, id, now, meanwhile, fails);
    case Other(step) => StepKeepsValid(w.tmux, step);
  }

  lemma RollbackKeepsInOrder(w: World, id: string, now: int, meanwhile: seq<Outside>, fails: set<Call>)
    requires InOrder(w)
    ensures var out := RollbackDone(w.tmux, w.store, id, now, meanwhile, fails);
      && Valid(out.tmux) && PlansOk(out.store)
      && (out.tmux.panes == w.tmux.panes || out.tmux.panes == AfterSteps(w.tmux, meanwhile).panes)
      && out.store.batches.Keys == w.store.batches.Keys
      && (forall b :: b in w.store.batches ==>
            out.store.batches[b].rolledBack == (w.store.batches[b].rolledBack || (b == id && out.ok)))
      && (out.ok ==> id in w.store.batches && !w.store.batches[id].rolledBack)
  {
    hide Valid, PlacementRestored, PlacementOf, RecordRestored, AfterSteps, GoesHome;
    if Revocable(w.tmux, w.store, id, now) {
      var plan := w.store.batches[id].plan;
      StepsKeepValid(w.tmux, meanwhile);
      RestoreGoesHome(AfterSteps(w.tmux, meanwhile), plan.source.value, plan.pane, fails);
      RecordKeepsBatches(w.store, plan, fails);
    }
  }

  function AfterRun(w: World, events: seq<Event>): World
    requires InOrder(w)
    decreases |events|
  {
    if events == [] then w else EventKeepsInOrder(w, events[0]); AfterRun(Next(w, events[0]), events[1..])
  }

  /** However previews, applications, rollbacks and outside changes follow and interrupt each other,
      with any of the calls failing, every pane stays in exactly one window. */
  lemma {:induction false} RunKeepsInOrder(w: World, events: seq<Event>)
    requires InOrder(w)
    ensures Valid(AfterRun(w, events).tmux)
    decreases |events|
  {
    hide Valid, Next, PlansOk;
    if events != [] {
      EventKeepsInOrder(w, events[0]);
      RunKeepsInOrder(Next(w, events[0]), events[1..]);
    }
  }

  // ----- How often a batch is rolled back -----

  /** A rollback of the batch gets past its checks and changes a pane or a record. */
  predicate Acts(w: World, e: Event, batchId: string)
    requires Valid(w.tmux)
  {
    && e.Rollback? && e.id == batchId && Inspect !in e.fails && Revocable(w.tmux, w.store, batchId, e.now)
    && (Result(w, e).store != w.store || Result(w, e).tmux != AfterSteps(w.tmux, e.meanwhile))
  }

  /** A call fails that comes after the pane has been joined. */
  predicate Interrupted(e: Event, batchId: string) {
    e.Rollback? && e.id == batchId && !(e.fails !! {Layout, RestoreAgent, RestoreMapping, UpdateBatch})
  }

  /** How many rollbacks of one batch change something in a run. */
  function ActingRollbacks(w: World, events: seq<Event>, batchId: string): nat
    requires InOrder(w)
    decreases |events|
  {
    if events == [] then 0
    else
      EventKeepsInOrder(w, events[0]);
      (if Acts(w, events[0], batchId) then 1 else 0) + ActingRollbacks(Next(w, events[0]), events[1..], batchId)
  }

  function Interruptions(events: seq<Event>, batchId: string): nat {
    if events == [] then 0
    else (if Interrupted(events[0], batchId) then 1 else 0) + Interruptions(events[1..], batchId)
  }

  predicate FreshRun(w: World, events: seq<Event>)
    requires InOrder(w)
    decreases |events|
  {
    events == []
    || (Fresh(w, events[0])
        && (EventKeepsInOrder(w, events[0]); FreshRun(Next(w, events[0]), events[1..])))
  }

  predicate IsRolledBack(w: World, batchId: string) {
    batchId in w.store.batches && w.store.batches[batchId].rolledBack
  }

  lemma EventKeepsRolledBack(w: World, e: Event, batchId: string)
    requires InOrder(w) && Fresh(w, e)
    ensures IsRolledBack(w, batchId) ==> IsRolledBack(Next(w, e), batchId) && !Acts(w, e, batchId)
    ensures Acts(w, e, batchId) && !Interrupted(e, batchId) ==> IsRolledBack(Next(w, e), batchId)
  {
    hide Valid, Applied, RollbackDone, AfterStep, BuildPlan, AfterSteps, PlacementOf;
    match e
    case Preview(_, _, _) =>
    case Apply(id, env) => ApplyKeepsBatches(w.tmux, w.store, id, env);
    case Rollback(id, now, meanwhile, fails) =>
      RollbackKeepsInOrder(w, id, now, meanwhile, fails);
      if Acts(w, e, batchId) && !Interrupted(e, batchId) {
        ActingCompletes(w, e, batchId);
      }
    case Other(_) =>
  }

  lemma ActingCompletes(w: World, e: Event, batchId: string)
    requires InOrder(w) && Acts(w, e, batchId) && !Interrupted(e, batchId)
    ensures Result(w, e).ok
  {
    hide Valid, PlacementRestored, Revocable, AfterSteps, GoesHome;
    RevocableIsKnown(w.tmux, w.store, batchId, e.now);
    var plan := w.store.batches[batchId].plan;
    StepsKeepValid(w.tmux, e.meanwhile);
    RestoreGoesHome(AfterSteps(w.tmux, e.meanwhile), plan.source.value, plan.pane, e.fails);
  }

  /** After a batch is marked no rollback of it changes anything, and before that all but one of those
      that do were interrupted behind the join. */
  lemma {:induction false} ActingRollbacksAreFew(w: World, events: seq<Event>, batchId: string)
    requires InOrder(w) && FreshRun(w, events)
    ensures ActingRollbacks(w, events, batchId) <=
      if IsRolledBack(w, batchId) then 0 else Interruptions(events, batchId) + 1
    decreases |events|
  {
    hide Valid, PlansOk, Next, Acts, IsRolledBack, Fresh, Interrupted;
    if events != [] {
      EventKeepsInOrder(w, events[0]);
      EventKeepsRolledBack(w, events[0], batchId);
      ActingRollbacksAreFew(Next(w, events[0]), events[1..], batchId);
    }
  }

  // ----- Which panes are lost -----

  /** The application takes the pane away: it removes the control window, and the pane is in it. */
  predicate Loses(t: Server, store: Store, batchId: string, env: Env, p: string)
    requires Valid(t)
  {
    && Applicable(t, store, batchId)
    && var plan := Current(t, store, batchId);
       && RemovesControl(t, plan, env)
       && var last := Last(t, plan, env);
          p in last.panes && Named(last, plan.destination, CONTROL) == {WindowOf(last, p)}
  }

  predicate Undisturbed(env: Env, p: string) {
    Exits(p) !in env.beforeBreak && Exits(p) !in env.beforeVerify && Exits(p) !in env.beforeEnd
  }

  /** Up to the last outside change, a pane that does not exit stays. */
  lemma LastKeepsPane(t: Server, plan: Plan, env: Env, p: string)
    requires Valid(t) && p in t.panes && Undisturbed(env, p)
    ensures var last := Last(t, plan, env); p in last.panes && last.panes[p] == t.panes[p]
  {
    hide Valid, BreakPane, NewWindow, AfterSteps;
    var ready := SessionOpened(t, plan, env);
    OpenedIsValid(t, plan, env);
    if ready.Some? {
      if !HasSession(t, plan.destination) {
        ControlIsNew(t, plan, env);
        NewWindowWorks(t, plan.destination, CONTROL, env.controlWindow, env.controlPane, env.controlProcess);
      }
      StepsKeepPane(ready.value, env.beforeBreak, p);
      StepsKeepValid(ready.value, env.beforeBreak);
      var t1 := AfterSteps(ready.value, env.beforeBreak);
      if PaneBroken(t1, plan, env).Some? {
        var t2 := PaneBroken(t1, plan, env).value;
        BreakMoves(t1, plan.pane, plan.destination, plan.windowName, env.window);
        StepsKeepPane(t2, env.beforeVerify, p);
        StepsKeepValid(t2, env.beforeVerify);
        StepsKeepPane(AfterSteps(t2, env.beforeVerify), env.beforeEnd, p);
      }
    }
  }

  lemma ControlIsNew(t: Server, plan: Plan, env: Env)
    requires !HasSession(t, plan.destination) && SessionOpened(t, plan, env).Some?
    ensures var t' := SessionOpened(t, plan, env).value;
      && env.controlPane !in t.panes && env.controlWindow !in t.windows && env.controlWindow in t'.windows
      && t'.windows[env.controlWindow] == Window(plan.destination, CONTROL, [env.controlPane])
      && Holds(t', env.controlWindow, env.controlPane)
      && t' == NewWindow(t, plan.destination, CONTROL, env.controlWindow, env.controlPane, env.controlProcess).value
  {
  }

  /** Whatever others do during an application, a pane that does not exit is gone afterwards exactly if
      it was in the control window when that was removed; otherwise it still has its process. */
  lemma ApplyLosesIff(t: Server, store: Store, batchId: string, env: Env, p: string)
    requires Valid(t) && p in t.panes && Undisturbed(env, p)
    ensures var out := Applied(t, store, batchId, env).tmux;
      && (p !in out.panes <==> Loses(t, store, batchId, env, p))
      && (p in out.panes ==> out.panes[p] == t.panes[p])
  {
    hide Valid, Applicable, Moved, Named, RemovesControl, Undisturbed, BuildPlan, Last;
    if Applicable(t, store, batchId) {
      var plan := Current(t, store, batchId);
      if !plan.alreadyAdopted {
        ApplyKeepsPanes(t, store, batchId, env);
        LastKeepsPane(t, plan, env, p);
        var last := Last(t, plan, env);
        assert Holds(last, WindowOf(last, p), p);
      } else {
        NothingRemoved(t, plan, env);
      }
    }
  }

  lemma NothingRemoved(t: Server, plan: Plan, env: Env)
    requires Valid(t) && plan.source.Some? && plan.alreadyAdopted
    ensures !RemovesControl(t, plan, env)
  {
  }

  /** The pane's process does not end by itself or by others. */
  predicate Spares(e: Event, p: string) {
    match e
    case Preview(_, _, _) => true
    case Apply(_, env) => Undisturbed(env, p)
    case Rollback(_, _, meanwhile, _) => Exits(p) !in meanwhile
    case Other(step) => step != Exits(p)
  }

  predicate SparesAll(events: seq<Event>, p: string) {
    forall i :: 0 <= i < |events| ==> Spares(events[i], p)
  }

  predicate Takes(w: World, e: Event, p: string)
    requires Valid(w.tmux)
  {
    e.Apply? && Loses(w.tmux, w.store, e.id, e.env, p)
  }

  lemma EventLosesIff(w: World, e: Event, p: string)
    requires InOrder(w) && Spares(e, p) && p in w.tmux.panes
    ensures p !in Next(w, e).tmux.panes <==> Takes(w, e, p)
    ensures p in Next(w, e).tmux.panes ==> Next(w, e).tmux.panes[p] == w.tmux.panes[p]
  {
    hide Valid, Applied, RollbackDone, AfterStep, AfterSteps, BuildPlan, Loses;
    match e
    case Preview(_, _, _) => PreviewKeepsInOrder(w, e);
    case Apply(id, env) => ApplyLosesIff(w.tmux, w.store, id, env, p);
    case Rollback(id, now, meanwhile, fails) =>
      RollbackKeepsInOrder(w, id, now, meanwhile, fails);
      StepsKeepPane(w.tmux, meanwhile, p);
    case Other(step) => StepKeepsPane(w.tmux, step, p);
  }

  /** The pane is there all through the run. */
  predicate Survives(w: World, events: seq<Event>, p: string)
    requires InOrder(w)
    decreases |events|
  {
    && p in w.tmux.panes
    && (events != [] ==> (EventKeepsInOrder(w, events[0]); Survives(Next(w, events[0]), events[1..], p)))
  }

  /** No application of the run takes the pane away. */
  predicate NeverTaken(w: World, events: seq<Event>, p: string)
    requires InOrder(w)
    decreases |events|
  {
    events == []
    || (!Takes(w, events[0], p) && (EventKeepsInOrder(w, events[0]); NeverTaken(Next(w, events[0]), events[1..], p)))
  }

  /** Over any run of previews, applications, rollbacks and outside changes, a pane that does not exit
      survives exactly if no application removes a control window with the pane in it; and then it has
      the process it had, in exactly one window. */
  lemma {:induction false} SurvivesIffNeverTaken(w: World, events: seq<Event>, p: string)
    requires InOrder(w) && SparesAll(events, p) && p in w.tmux.panes
    ensures Survives(w, events, p) <==> NeverTaken(w, events, p)
    ensures Survives(w, events, p) ==>
      var t := AfterRun(w, events).tmux;
      && p in t.panes && t.panes[p] == w.tmux.panes[p]
      && exists v :: Holds(t, v, p) && forall u :: Holds(t, u, p) ==> u == v
    decreases |events|
  {
    hide Valid, PlansOk, Next, Holds, Takes;
    if events == [] {
      assert Holds(w.tmux, WindowOf(w.tmux, p), p);
    } else {
      EventKeepsInOrder(w, events[0]);
      EventLosesIff(w, events[0], p);
      assert forall i :: 0 <= i < |events[1..]| ==> events[1..][i] == events[i + 1];
      if p in Next(w, events[0]).tmux.panes {
        SurvivesIffNeverTaken(Next(w, events[0]), events[1..], p);
      } else {
        GoneIsNoSurvivor(Next(w, events[0]), events[1..], p);
      }
    }
  }

  lemma GoneIsNoSurvivor(w: World, events: seq<Event>, p: string)
    requires InOrder(w) && p !in w.tmux.panes
    ensures !Survives(w, events, p)
  {
  }
}
