/** Adopting an agent's pane into a window of its own, and putting it back: previews, applications and
    rollbacks as steps on a tmux server and a store, any of which may fail, with the server changing
    meanwhile. */
module Adoption {
  import opened Options
  import opened Tmux

  const CONTROL: string := "__control"

  /** The keys of an agent's metadata that matter here; the last six are written by an adoption. */
  datatype Key =
    | ForkSession | LastResumeSession | CodexSession | CodexThread | RuntimeAliasOf | Cwd | OtherKey(name: string)
    | TmuxPaneId | TmuxSession | TmuxWindowId | TmuxWindowName | NativeTmuxState | NativeTmuxAdoptedAt

  /** Values as text, None for null. */
  type Metadata = map<Key, Option<string>>

  datatype Agent = Agent(caller: bool, metadata: Metadata)

  /** Which pane an agent owns; `writer` is the holder of a writer lease. */
  datatype Mapping = Mapping(
    pane: string, pid: int, ticks: Option<int>, session: string, window: string,
    codexSession: Option<string>, origin: Option<string>, writer: Option<string>)

  datatype Placement = Placement(
    session: string, window: string, windowName: string, pane: string, process: Process, siblings: seq<string>)

  datatype Plan = Plan(
    agentId: string, pane: string, codexSession: string, destination: string, windowName: string, origin: string,
    alreadyAdopted: bool, blocked: bool, source: Option<Placement>, agent: Agent, mapping: Option<Mapping>)

  datatype Status = Previewed | Complete | RolledBack

  datatype Batch = Batch(status: Status, plan: Plan, retentionUntil: int, rolledBack: bool)

  datatype Store = Store(agents: map<string, Agent>, mappings: map<string, Mapping>, batches: map<string, Batch>)

  datatype Request = Request(agentId: string, pane: string, destination: string, windowName: string, origin: string)

  /** The calls that may fail. `Inspect` asks where the pane is: after the break, and at the start of a
      rollback. */
  datatype Call =
    | OpenSession | Break | Inspect | RegisterMapping | MarkAgent | RemoveControl
    | Join | Layout | RestoreAgent | RestoreMapping | UpdateBatch

  /** What the world outside contributes to one application: new ids, the time, the calls that fail, and what
      others do to the server before the break, between the break and the inspection, and between the
      inspection and the last command. */
  datatype Env = Env(
    controlWindow: string, controlPane: string, controlProcess: Process, window: string, adoptedAt: string,
    beforeBreak: seq<Outside>, beforeVerify: seq<Outside>, beforeEnd: seq<Outside>, fails: set<Call>)

  datatype Outcome = Outcome(tmux: Server, store: Store, ok: bool)

  // ----- Agents -----

  function FirstOf(a: string, b: string): string { if a != "" then a else b }

  function TextAt(m: Metadata, k: Key): string { if k in m && m[k].Some? then m[k].value else "" }

  function CodexSessionOf(a: Agent): string {
    FirstOf(TextAt(a.metadata, ForkSession),
            FirstOf(TextAt(a.metadata, LastResumeSession),
                    FirstOf(TextAt(a.metadata, CodexSession), TextAt(a.metadata, CodexThread))))
  }

  function AliasOf(a: Agent): string { TextAt(a.metadata, RuntimeAliasOf) }

  /** A key of the new metadata replaces the stored one, unless it is null, or a blank working directory. */
  predicate Overwrites(existing: Metadata, m: Metadata, k: Key)
    requires k in m
  {
    m[k].Some? && !(k == Cwd && m[k].value == "" && TextAt(existing, Cwd) != "")
  }

  /** Registering an agent that is known merges its metadata: keys that the new one lacks stay. */
  function Merged(existing: Metadata, m: Metadata): Metadata {
    existing + map k | k in m && Overwrites(existing, m, k) :: m[k]
  }

  function AdoptedKeys(d: Placement, at: string): Metadata {
    map[TmuxPaneId := Some(d.pane), TmuxSession := Some(d.session), TmuxWindowId := Some(d.window),
        TmuxWindowName := Some(d.windowName), NativeTmuxState := Some("popped_in"), NativeTmuxAdoptedAt := Some(at)]
  }

  // ----- Plans -----

  function PlacementOf(t: Server, p: string): Placement
    requires Valid(t) && p in t.panes
  {
    var w := WindowOf(t, p);
    Placement(t.windows[w].session, w, t.windows[w].name, p, t.panes[p], Without(t.windows[w].panes, p))
  }

  predicate SameSignature(a: Option<Placement>, b: Option<Placement>) {
    && (a.Some? <==> b.Some?)
    && (a.Some? ==>
          var x, y := a.value, b.value;
          && x.session == y.session && x.window == y.window && x.windowName == y.windowName && x.pane == y.pane
          && x.process.pid == y.process.pid && x.process.ticks == y.process.ticks && x.process.cwd == y.process.cwd)
  }

  function MappingFor(store: Store, agentId: string): Option<Mapping> {
    if agentId in store.mappings then Some(store.mappings[agentId]) else None
  }

  predicate Shares(m: Mapping, pane: string, codexSession: string) {
    (pane != "" && m.pane == pane) || (codexSession != "" && m.codexSession == Some(codexSession))
  }

  /** Another entity owns the pane or the Codex session. */
  predicate OwnedElsewhere(store: Store, agentId: string, pane: string, codexSession: string) {
    exists id :: id in store.mappings && id != agentId && Shares(store.mappings[id], pane, codexSession)
  }

  predicate Claims(other: Agent, agentId: string, codexSession: string) {
    CodexSessionOf(other) == codexSession && AliasOf(other) != agentId
  }

  predicate ClaimedElsewhere(store: Store, agentId: string, codexSession: string) {
    && codexSession != ""
    && exists id :: id in store.agents && id != agentId && Claims(store.agents[id], agentId, codexSession)
  }

  predicate LiveElsewhere(t: Server, pane: string, codexSession: string) {
    codexSession != "" && exists p :: p in t.panes && p != pane && codexSession in t.panes[p].sessions
  }

  predicate EvidenceAgainst(process: Process, codexSession: string) {
    process.sessions != {} && codexSession !in process.sessions
  }

  predicate SourceBlocked(t: Server, source: Option<Placement>, pane: string, codexSession: string,
                          destination: string) {
    || source.None?
    || EvidenceAgainst(source.value.process, codexSession)
    || LiveElsewhere(t, pane, codexSession)
    || (source.value.session == destination && source.value.siblings != [])
    || (source.value.session != destination && source.value.siblings == [])
  }

  function OriginOf(mapping: Option<Mapping>): string {
    if mapping.Some? && mapping.value.origin.Some? then mapping.value.origin.value else ""
  }

  function BuildPlan(t: Server, store: Store, r: Request): Option<Plan>
    requires Valid(t)
  {
    if r.agentId !in store.agents then None
    else
      var agent := store.agents[r.agentId];
      var session := CodexSessionOf(agent);
      var mapping := MappingFor(store, r.agentId);
      var pane := FirstOf(r.pane,
        FirstOf(TextAt(agent.metadata, TmuxPaneId), if mapping.Some? then mapping.value.pane else ""));
      var source := if pane in t.panes then Some(PlacementOf(t, pane)) else None;
      var origin := FirstOf(r.origin, OriginOf(mapping));
      var blocked :=
        || !agent.caller || AliasOf(agent) != "" || session == "" || pane == ""
        || SourceBlocked(t, source, pane, session, r.destination)
        || ClaimedElsewhere(store, r.agentId, session)
        || OwnedElsewhere(store, r.agentId, pane, session)
        || (mapping.Some? && mapping.value.writer.Some?)
        || r.destination == "" || r.destination == origin;
      Some(Plan(
        r.agentId, pane, session, r.destination, r.windowName, origin,
        source.Some? && source.value.session == r.destination, blocked, source, agent, mapping))
  }

  function RequestOf(plan: Plan): Request {
    Request(plan.agentId, plan.pane, plan.destination, plan.windowName, plan.origin)
  }

  // ----- Records -----

  function NonEmpty(s: string): Option<string> { if s == "" then None else Some(s) }

  predicate HasOrigin(m: Mapping) { m.origin.Some? && m.origin.value != "" }

  /** An insertion, or an update that keeps the old origin when there is no new one, and the writer
      lease as long as the pane is the same. */
  function Upserted(store: Store, agentId: string, m: Mapping): Store {
    var earlier := MappingFor(store, agentId);
    var merged :=
      if earlier.None? then m.(writer := None)
      else m.(origin := if HasOrigin(m) then m.origin else earlier.value.origin,
              writer := if earlier.value.pane != m.pane then None else earlier.value.writer);
    store.(mappings := store.mappings[agentId := merged])
  }

  function NewMapping(plan: Plan, placement: Placement): Mapping {
    Mapping(placement.pane, placement.process.pid, placement.process.ticks, placement.session, placement.window,
            NonEmpty(plan.codexSession), NonEmpty(plan.origin), None)
  }

  /** The agent as it is registered after an adoption. */
  function Marked(store: Store, plan: Plan, d: Placement, at: string): Store
    requires plan.agentId in store.agents
  {
    var existing := store.agents[plan.agentId].metadata;
    var agent := Agent(true, Merged(existing, existing + AdoptedKeys(d, at)));
    store.(agents := store.agents[plan.agentId := agent])
  }

  /** An agent that is unknown counts as a caller without metadata. */
  function AgentFor(store: Store, agentId: string): Agent {
    if agentId in store.agents then store.agents[agentId] else Agent(true, map[])
  }

  function AgentMerged(existing: Agent, agent: Agent): Agent {
    Agent(existing.caller && agent.caller, Merged(existing.metadata, agent.metadata))
  }

  /** The snapshot is registered again, which merges it into the stored record. */
  function AgentRestored(store: Store, plan: Plan): Store {
    store.(agents := store.agents[plan.agentId := AgentMerged(AgentFor(store, plan.agentId), plan.agent)])
  }

  function MappingRestored(store: Store, plan: Plan): Store {
    if plan.mapping.None? then store.(mappings := store.mappings - {plan.agentId})
    else Upserted(store, plan.agentId, plan.mapping.value)
  }

  datatype Write = Write(store: Store, ok: bool)

  /** The agent's record first, then the mapping; the second is not tried when the first fails. */
  function RecordRestored(store: Store, plan: Plan, fails: set<Call>): Write {
    if RestoreAgent in fails then Write(store, false)
    else if RestoreMapping in fails then Write(AgentRestored(store, plan), false)
    else Write(MappingRestored(AgentRestored(store, plan), plan), true)
  }

  function Recorded(store: Store, batchId: string, plan: Plan, retentionUntil: int): Store {
    store.(batches := store.batches[batchId := Batch(Previewed, plan, retentionUntil, false)])
  }

  function Completed(store: Store, batchId: string): Store
    requires batchId in store.batches
  {
    store.(batches := store.batches[batchId := store.batches[batchId].(status := Complete)])
  }

  function Revoked(store: Store, batchId: string): Store
    requires batchId in store.batches
  {
    store.(batches := store.batches[batchId := store.batches[batchId].(status := RolledBack, rolledBack := true)])
  }

  // ----- Putting a pane back -----

  function FirstSurvivor(t: Server, siblings: seq<string>): Option<string> {
    if siblings == [] then None
    else if siblings[0] in t.panes then Some(siblings[0])
    else FirstSurvivor(t, siblings[1..])
  }

  datatype Restore = Restore(tmux: Server, ok: bool)

  /** The pane joins its first surviving sibling; the layout comes afterwards. */
  function PlacementRestored(t: Server, source: Placement, pane: string, fails: set<Call>): Restore {
    var anchor := FirstSurvivor(t, source.siblings);
    if anchor.None? then Restore(t, false)
    else
      var joined := if Join in fails then None else JoinPane(t, pane, anchor.value);
      if joined.None? then Restore(t, false) else Restore(joined.value, Layout !in fails)
  }

  // ----- Applying -----

  function SessionOpened(t: Server, plan: Plan, env: Env): Option<Server> {
    if HasSession(t, plan.destination) then Some(t)
    else if OpenSession in env.fails then None
    else NewWindow(t, plan.destination, CONTROL, env.controlWindow, env.controlPane, env.controlProcess)
  }

  lemma OpenedIsValid(t: Server, plan: Plan, env: Env)
    requires Valid(t)
    ensures SessionOpened(t, plan, env).Some? ==> Valid(SessionOpened(t, plan, env).value)
  {
    hide Valid, NewWindow;
    if NewWindow(t, plan.destination, CONTROL, env.controlWindow, env.controlPane, env.controlProcess).Some? {
      NewWindowWorks(t, plan.destination, CONTROL, env.controlWindow, env.controlPane, env.controlProcess);
    }
  }

  function PaneBroken(t: Server, plan: Plan, env: Env): Option<Server> {
    if Break in env.fails then None
    else BreakPane(t, plan.pane, plan.destination, plan.windowName, env.window)
  }

  lemma BrokenIsValid(t: Server, plan: Plan, env: Env)
    requires Valid(t)
    ensures PaneBroken(t, plan, env).Some? ==> Valid(PaneBroken(t, plan, env).value)
  {
    hide Valid, BreakPane;
    if BreakPane(t, plan.pane, plan.destination, plan.windowName, env.window).Some? {
      BreakMoves(t, plan.pane, plan.destination, plan.windowName, env.window);
    }
  }

  /** `_verify_destination`. */
  predicate Verified(plan: Plan, d: Placement)
    requires plan.source.Some?
  {
    var source := plan.source.value;
    && d.pane == source.pane && d.process.pid == source.process.pid && d.process.ticks == source.process.ticks
    && d.process.cwd == source.process.cwd
    && d.session == plan.destination && d.siblings == []
    && !EvidenceAgainst(d.process, plan.codexSession)
  }

  /** The checks and records made of the broken-out pane succeed. */
  predicate Accepted(plan: Plan, d: Placement, fails: set<Call>)
    requires plan.source.Some?
  {
    Verified(plan, d) && RegisterMapping !in fails && MarkAgent !in fails
  }

  /** From the inspection of the broken-out pane on: register it, or put it back. */
  function Settled(t: Server, store: Store, batchId: string, plan: Plan, created: bool, env: Env): Outcome
    requires Valid(t) && plan.pane in t.panes && plan.source.Some?
    requires plan.agentId in store.agents && batchId in store.batches
  {
    var d, last := PlacementOf(t, plan.pane), AfterSteps(t, env.beforeEnd);
    if !Verified(plan, d) || RegisterMapping in env.fails then
      Outcome(PlacementRestored(last, plan.source.value, plan.pane, env.fails).tmux, store, false)
    else
      var registered := Upserted(store, plan.agentId, NewMapping(plan, d));
      if MarkAgent in env.fails then
        Outcome(PlacementRestored(last, plan.source.value, plan.pane, env.fails).tmux, registered, false)
      else
        var marked := Marked(registered, plan, d, env.adoptedAt);
        var t' := ControlRemoved(last, plan, created, env.fails);
        if UpdateBatch in env.fails then Outcome(t', marked, false) else Outcome(t', Completed(marked, batchId), true)
  }

  /** A session made for the adoption loses its control window. Whether that worked is not looked at. */
  function ControlRemoved(t: Server, plan: Plan, created: bool, fails: set<Call>): Server {
    if created && RemoveControl !in fails then KillWindow(t, plan.destination, CONTROL) else t
  }

  /** How far the pane got: broken out of its window, and found where it is now. */
  datatype Arrival = Arrival(tmux: Server, broken: bool, found: bool)

  /** The session is opened if need be, and the pane is broken out into it, while others go on. */
  function Arrived(t: Server, plan: Plan, env: Env): (a: Arrival)
    requires Valid(t)
    ensures Valid(a.tmux) && (a.found ==> a.broken && plan.pane in a.tmux.panes)
  {
    var ready := SessionOpened(t, plan, env);
    if ready.None? then Arrival(t, false, false)
    else
      OpenedIsValid(t, plan, env);
      var t1 := AfterSteps(ready.value, env.beforeBreak);
      StepsKeepValid(ready.value, env.beforeBreak);
      var broken := PaneBroken(t1, plan, env);
      if broken.None? then Arrival(t1, false, false)
      else
        BrokenIsValid(t1, plan, env);
        var t2 := AfterSteps(broken.value, env.beforeVerify);
        StepsKeepValid(broken.value, env.beforeVerify);
        Arrival(t2, true, plan.pane in t2.panes && Inspect !in env.fails)
  }

  /** A pane that cannot be found after the break is left where it is. */
  function Moved(t: Server, store: Store, batchId: string, plan: Plan, env: Env): Outcome
    requires Valid(t) && plan.source.Some? && plan.agentId in store.agents && batchId in store.batches
  {
    var a := Arrived(t, plan, env);
    if a.found then Settled(a.tmux, store, batchId, plan, !HasSession(t, plan.destination), env)
    else Outcome(a.tmux, store, false)
  }

  /** A pane that is already where it should be only gets its mapping. */
  function Registered(t: Server, store: Store, batchId: string, plan: Plan, fails: set<Call>): Outcome
    requires plan.source.Some? && batchId in store.batches
  {
    if RegisterMapping in fails then Outcome(t, store, false)
    else
      var registered := Upserted(store, plan.agentId, NewMapping(plan, plan.source.value));
      if UpdateBatch in fails then Outcome(t, registered, false) else Outcome(t, Completed(registered, batchId), true)
  }

  /** The batch can still be applied: it is fresh, not blocked, and the plan made anew agrees with it. */
  predicate Applicable(t: Server, store: Store, batchId: string)
    requires Valid(t)
  {
    && batchId in store.batches && store.batches[batchId].status == Previewed && !store.batches[batchId].plan.blocked
    && var plan := store.batches[batchId].plan;
       var current := BuildPlan(t, store, RequestOf(plan));
       current.Some? && !current.value.blocked && SameSignature(current.value.source, plan.source)
  }

  function Current(t: Server, store: Store, batchId: string): (plan: Plan)
    requires Valid(t) && Applicable(t, store, batchId)
    ensures plan.source.Some? && plan.agentId in store.agents && plan.agentId == store.batches[batchId].plan.agentId
  {
    BuildPlan(t, store, RequestOf(store.batches[batchId].plan)).value
  }

  function Applied(t: Server, store: Store, batchId: string, env: Env): Outcome
    requires Valid(t)
  {
    if !Applicable(t, store, batchId) then Outcome(t, store, false)
    else
      var plan := Current(t, store, batchId);
      if plan.alreadyAdopted then Registered(t, store, batchId, plan, env.fails)
      else Moved(t, store, batchId, plan, env)
  }

  // ----- Rolling back -----

  predicate Revocable(t: Server, store: Store, batchId: string, now: int)
    requires Valid(t)
  {
    && batchId in store.batches && !store.batches[batchId].rolledBack && store.batches[batchId].retentionUntil >= now
    && var plan := store.batches[batchId].plan;
       && plan.pane in t.panes && plan.source.Some?
       && var here, source := PlacementOf(t, plan.pane), plan.source.value;
          && here.process.pid == source.process.pid
          && (source.process.ticks.Some? && source.process.ticks.value != 0 ==>
                here.process.ticks == source.process.ticks)
          && here.session == plan.destination
  }

  /** `meanwhile` is what others do between the checks and the join. */
  function RollbackDone(t: Server, store: Store, batchId: string, now: int, meanwhile: seq<Outside>, fails: set<Call>):
    Outcome
    requires Valid(t)
  {
    if Inspect in fails || !Revocable(t, store, batchId, now) then Outcome(t, store, false)
    else
      var plan := store.batches[batchId].plan;
      var restore := PlacementRestored(AfterSteps(t, meanwhile), plan.source.value, plan.pane, fails);
      if !restore.ok then Outcome(restore.tmux, store, false)
      else
        var record := RecordRestored(store, plan, fails);
        if !record.ok || UpdateBatch in fails then Outcome(restore.tmux, record.store, false)
        else
          RecordKeepsBatches(store, plan, fails);
          Outcome(restore.tmux, Revoked(record.store, batchId), true)
  }

  lemma RecordKeepsBatches(store: Store, plan: Plan, fails: set<Call>)
    ensures RecordRestored(store, plan, fails).store.batches == store.batches
  {
  }

  // ----- The service -----

  class AgentPaneAdoptionService {
    var tmux: Server
    var store: Store

    constructor (tmux: Server, store: Store)
      ensures this.tmux == tmux && this.store == store
    {
      this.tmux := tmux;
      this.store := store;
    }

    method Preview(r: Request, batchId: string, retentionUntil: int) returns (plan: Option<Plan>)
      requires Valid(tmux)
      modifies this`store
      ensures plan == BuildPlan(tmux, old(store), r)
      ensures plan.None? ==> store == old(store)
      ensures plan.Some? ==> store == Recorded(old(store), batchId, plan.value, retentionUntil)
    {
      plan := BuildPlan(tmux, store, r);
      if plan.Some? {
        store := Recorded(store, batchId, plan.value, retentionUntil);
      }
    }

    method RestorePlacement(source: Placement, pane: string, fails: set<Call>) returns (ok: bool)
      modifies this`tmux
      ensures Restore(tmux, ok) == PlacementRestored(old(tmux), source, pane, fails)
    {
      var anchor := FirstSurvivor(tmux, source.siblings);
      if anchor.None? || Join in fails {
        return false;
      }
      var joined := JoinPane(tmux, pane, anchor.value);
      if joined.None? {
        return false;
      }
      tmux := joined.value;
      ok := Layout !in fails;
    }

    method RestoreRecord(plan: Plan, fails: set<Call>) returns (ok: bool)
      modifies this`store
      ensures Write(store, ok) == RecordRestored(old(store), plan, fails)
    {
      if RestoreAgent in fails {
        return false;
      }
      var agent := AgentMerged(AgentFor(store, plan.agentId), plan.agent);
      store := store.(agents := store.agents[plan.agentId := agent]);
      if RestoreMapping in fails {
        return false;
      }
      if plan.mapping.None? {
        store := store.(mappings := store.mappings - {plan.agentId});
      } else {
        store := Upserted(store, plan.agentId, plan.mapping.value);
      }
      ok := true;
    }

    method Settle(batchId: string, plan: Plan, created: bool, env: Env) returns (ok: bool)
      requires Valid(tmux) && plan.pane in tmux.panes && plan.source.Some?
      requires plan.agentId in store.agents && batchId in store.batches
      modifies this
      ensures Outcome(tmux, store, ok) == Settled(old(tmux), old(store), batchId, plan, created, env)
    {
      hide Valid, PlacementRestored, KillWindow, Upserted, Marked, Completed, Verified, AfterSteps;
      var destination := PlacementOf(tmux, plan.pane);
      tmux := AfterSteps(tmux, env.beforeEnd);
      if !Verified(plan, destination) || RegisterMapping in env.fails {
        var _ := RestorePlacement(plan.source.value, plan.pane, env.fails);
        return false;
      }
      UpsertKeepsRest(store, plan.agentId, NewMapping(plan, destination));
      store := Upserted(store, plan.agentId, NewMapping(plan, destination));
      if MarkAgent in env.fails {
        var _ := RestorePlacement(plan.source.value, plan.pane, env.fails);
        return false;
      }
      MarkKeepsRest(store, plan, destination, env.adoptedAt);
      store := Marked(store, plan, destination, env.adoptedAt);
      if created && RemoveControl !in env.fails {
        tmux := KillWindow(tmux, plan.destination, CONTROL);
      }
      if UpdateBatch in env.fails {
        return false;
      }
      store := Completed(store, batchId);
      ok := true;
    }

    method Apply(batchId: string, env: Env) returns (ok: bool)
      requires Valid(tmux)
      modifies this
      ensures Outcome(tmux, store, ok) == Applied(old(tmux), old(store), batchId, env)
    {
      hide Valid, Applicable, Settled, Upserted, Completed, SessionOpened, PaneBroken, AfterSteps;
      if !Applicable(tmux, store, batchId) {
        return false;
      }
      ApplicableIsKnown(tmux, store, batchId);
      var plan := Current(tmux, store, batchId);
      if plan.alreadyAdopted {
        if RegisterMapping in env.fails {
          return false;
        }
        UpsertKeepsRest(store, plan.agentId, NewMapping(plan, plan.source.value));
        store := Upserted(store, plan.agentId, NewMapping(plan, plan.source.value));
        if UpdateBatch in env.fails {
          return false;
        }
        store := Completed(store, batchId);
        return true;
      }
      var created := !HasSession(tmux, plan.destination);
      var ready := SessionOpened(tmux, plan, env);
      if ready.None? {
        return false;
      }
      OpenedIsValid(tmux, plan, env);
      tmux := ready.value;
      StepsKeepValid(tmux, env.beforeBreak);
      tmux := AfterSteps(tmux, env.beforeBreak);
      var broken := PaneBroken(tmux, plan, env);
      if broken.None? {
        return false;
      }
      BrokenIsValid(tmux, plan, env);
      tmux := broken.value;
      StepsKeepValid(tmux, env.beforeVerify);
      tmux := AfterSteps(tmux, env.beforeVerify);
      if plan.pane !in tmux.panes || Inspect in env.fails {
        return false;
      }
      ok := Settle(batchId, plan, created, env);
    }

    method Rollback(batchId: string, now: int, meanwhile: seq<Outside>, fails: set<Call>) returns (ok: bool)
      requires Valid(tmux)
      modifies this
      ensures Outcome(tmux, store, ok) == RollbackDone(old(tmux), old(store), batchId, now, meanwhile, fails)
    {
      hide Valid, PlacementRestored, RecordRestored, AfterSteps, Revocable;
      if Inspect in fails || !Revocable(tmux, store, batchId, now) {
        return false;
      }
      RevocableIsKnown(tmux, store, batchId, now);
      var plan := store.batches[batchId].plan;
      tmux := AfterSteps(tmux, meanwhile);
      var placed := RestorePlacement(plan.source.value, plan.pane, fails);
      if !placed {
        return false;
      }
      RecordKeepsBatches(store, plan, fails);
      var recorded := RestoreRecord(plan, fails);
      if !recorded || UpdateBatch in fails {
        return false;
      }
      store := Revoked(store, batchId);
      ok := true;
    }
  }

  lemma RevocableIsKnown(t: Server, store: Store, batchId: string, now: int)
    requires Valid(t) && Revocable(t, store, batchId, now)
    ensures batchId in store.batches && store.batches[batchId].plan.source.Some?
  {
  }

  lemma ApplicableIsKnown(t: Server, store: Store, batchId: string)
    requires Valid(t) && Applicable(t, store, batchId)
    ensures batchId in store.batches
  {
  }

  lemma UpsertKeepsRest(store: Store, agentId: string, m: Mapping)
    ensures Upserted(store, agentId, m).agents == store.agents && Upserted(store, agentId, m).batches == store.batches
  {
  }

  lemma MarkKeepsRest(store: Store, plan: Plan, d: Placement, at: string)
    requires plan.agentId in store.agents
    ensures var marked := Marked(store, plan, d, at);
      marked.mappings == store.mappings && marked.batches == store.batches
  {
  }
}
