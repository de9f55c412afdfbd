/** The registry of event clients: who is connected, and the fixed-window limit on the messages each
    client may send. Clock readings are parameters, in seconds. */
module RateLimiter {
  import opened Options

  const WINDOW: real := 60.0

  datatype EventClient = EventClient(
    role: string, connectedAt: real, cursor: nat, lastSeenAt: real, windowStart: real, count: nat)

  type Clients = map<string, EventClient>

  datatype Config = Config(maxClients: int, messageRate: int) {
    function Places(): (n: nat)
      ensures n >= 1 && n >= maxClients && (n == 1 || n == maxClients)
    {
      if maxClients < 1 then 1 else maxClients
    }

    function Limit(): (n: nat)
      ensures n >= 1 && n >= messageRate && (n == 1 || n == messageRate)
    {
      if messageRate < 1 then 1 else messageRate
    }
  }

  function AtLeastZero(n: int): (m: nat)
    ensures m >= n && (m == 0 || m == n)
  {
    if n < 0 then 0 else n
  }

  predicate CanRegister(clients: Clients, id: string, config: Config) {
    |clients| < config.Places() && id !in clients
  }

  function NewClient(role: string, cursor: int, now: real): EventClient {
    EventClient(role, now, AtLeastZero(cursor), now, now, 0)
  }

  /** The client with its window rolled forward if the old one is over. */
  function Rolled(c: EventClient, now: real): EventClient {
    if now - c.windowStart >= WINDOW then c.(windowStart := now, count := 0) else c
  }

  predicate Admits(c: EventClient, now: real, config: Config) { Rolled(c, now).count < config.Limit() }

  function Charged(c: EventClient, now: real, config: Config): EventClient {
    var rolled := Rolled(c, now);
    if Admits(c, now, config) then rolled.(count := rolled.count + 1, lastSeenAt := now) else rolled
  }

  predicate Allows(clients: Clients, id: string, now: real, config: Config) {
    id in clients && Admits(clients[id], now, config)
  }

  function AfterMessage(clients: Clients, id: string, now: real, config: Config): Clients {
    if id in clients then clients[id := Charged(clients[id], now, config)] else clients
  }

  class EventClientRegistry {
    const config: Config
    var clients: Clients

    constructor (config: Config)
      ensures this.config == config && clients == map[]
    {
      this.config := config;
      clients := map[];
    }

    /** The first critical section of `register`: both refusals. */
    method CheckRegistration(id: string) returns (ok: bool)
      ensures ok <==> CanRegister(clients, id, config)
    {
      if |clients| >= config.Places() {
        return false;
      }
      if id in clients {
        return false;
      }
      return true;
    }

    /** The second critical section of `register`, which checks nothing again. */
    method InsertClient(id: string, client: EventClient)
      modifies this
      ensures clients == old(clients)[id := client]
    {
      clients := clients[id := client];
    }

    /** `register` with nobody in between its two critical sections. */
    method Register(role: string, cursor: int, clientId: Option<string>, generated: string, now: real)
      returns (client: Option<EventClient>)
      modifies this
      ensures var id := if clientId.Some? && clientId.value != "" then clientId.value else generated;
        if CanRegister(old(clients), id, config)
        then client == Some(NewClient(role, cursor, now)) && clients == old(clients)[id := client.value]
        else client == None && clients == old(clients)
      ensures client.Some? ==>
        && client.value.role == role && client.value.cursor == AtLeastZero(cursor) && client.value.count == 0
        && client.value.connectedAt == client.value.lastSeenAt == client.value.windowStart == now
      ensures client.Some? <==>
        var id := if clientId.Some? && clientId.value != "" then clientId.value else generated;
        id !in old(clients) && (|old(clients)| < config.maxClients || old(clients) == map[])
    {
      var id := if clientId.Some? && clientId.value != "" then clientId.value else generated;
      var ok := CheckRegistration(id);
      if !ok {
        return None;
      }
      var made := EventClient(role, now, AtLeastZero(cursor), now, now, 0);
      InsertClient(id, made);
      client := Some(made);
    }

    method Update(id: string, cursor: int, now: real) returns (client: Option<EventClient>)
      modifies this
      ensures id !in old(clients) ==> client == None && clients == old(clients)
      ensures id in old(clients) ==>
        && client == Some(old(clients)[id].(cursor := AtLeastZero(cursor), lastSeenAt := now))
        && clients == old(clients)[id := client.value]
    {
      if id !in clients {
        return None;
      }
      var updated := clients[id].(cursor := AtLeastZero(cursor)).(lastSeenAt := now);
      clients := clients[id := updated];
      client := Some(updated);
    }

    method Unregister(id: string)
      modifies this
      ensures clients == old(clients) - {id}
    {
      clients := clients - {id};
    }

    method AllowMessage(id: string, now: real) returns (allowed: bool)
      modifies this
      ensures allowed <==> Allows(old(clients), id, now, config)
      ensures clients == AfterMessage(old(clients), id, now, config)
    {
      if id !in clients {
        return false;
      }
      if now - clients[id].windowStart >= WINDOW {
        clients := clients[id := clients[id].(windowStart := now).(count := 0)];
      }
      if clients[id].count >= config.Limit() {
        return false;
      }
      clients := clients[id := clients[id].(count := clients[id].count + 1)];
      clients := clients[id := clients[id].(lastSeenAt := now)];
      allowed := true;
    }
  }

  // ----- One message -----

  /** What a message does to a client: it is accepted exactly if the last window began 60 seconds ago or more, or
      holds fewer messages than the limit. An accepted message is counted, in a window of its own if the last one
      is over, and is when the client was last seen. A refused one changes nothing; nor is anybody else changed. */
  lemma MessageMeans(clients: Clients, id: string, now: real, config: Config)
    ensures var after, allowed := AfterMessage(clients, id, now, config), Allows(clients, id, now, config);
      if id !in clients then !allowed && after == clients
      else
        var c := clients[id];
        var over := now - c.windowStart >= 60.0;
        && (allowed <==> over || c.count < 1 || c.count < config.messageRate)
        && after == (if !allowed then clients
                     else clients[id := EventClient(c.role, c.connectedAt, c.cursor, now,
                                                    if over then now else c.windowStart,
                                                    if over then 1 else c.count + 1)])
  {
    if id in clients && !Allows(clients, id, now, config) {
      assert Charged(clients[id], now, config) == clients[id];
      assert clients[id := clients[id]] == clients;
    }
  }

  // ----- Runs of one registry -----

  datatype Action =
    | Connect(role: string, cursor: int)
    | Follow(cursor: int)
    | Disconnect
    | Message

  datatype Event = Event(at: real, id: string, action: Action)

  function Next(clients: Clients, e: Event, config: Config): Clients {
    match e.action
    case Connect(role, cursor) =>
      if CanRegister(clients, e.id, config) then clients[e.id := NewClient(role, cursor, e.at)] else clients
    case Follow(cursor) =>
      if e.id in clients then clients[e.id := clients[e.id].(cursor := AtLeastZero(cursor), lastSeenAt := e.at)]
      else clients
    case Disconnect => clients - {e.id}
    case Message => AfterMessage(clients, e.id, e.at, config)
  }

  predicate Accepted(clients: Clients, e: Event, id: string, config: Config) {
    e.action.Message? && e.id == id && Allows(clients, id, e.at, config)
  }

  predicate InSpan(at: real, from: real) { from <= at < from + WINDOW }

  /** How many messages of `id` the run accepts in the 60 seconds that begin at `from`. */
  function AcceptedIn(clients: Clients, events: seq<Event>, id: string, from: real, config: Config): nat
    decreases |events|
  {
    if events == [] then 0
    else
      (if Accepted(clients, events[0], id, config) && InSpan(events[0].at, from) then 1 else 0)
      + AcceptedIn(Next(clients, events[0], config), events[1..], id, from, config)
  }

  /** How many messages `id` sends in the 60 seconds that begin at `from`. */
  function SentIn(events: seq<Event>, id: string, from: real): nat {
    if events == [] then 0
    else
      SentIn(events[..|events| - 1], id, from)
      + (if Sends(events[|events| - 1], id, from) then 1 else 0)
  }

  predicate Sends(e: Event, id: string, from: real) { e.action.Message? && e.id == id && InSpan(e.at, from) }

  predicate ClockRuns(events: seq<Event>, since: real) {
    && (forall i :: 0 <= i < |events| ==> since <= events[i].at)
    && (forall i, j :: 0 <= i < j < |events| ==> events[i].at <= events[j].at)
  }

  predicate Reconnects(e: Event, id: string, from: real) { e.action.Connect? && e.id == id && InSpan(e.at, from) }

  /** How often `id` asks for a connection in the 60 seconds that begin at `from`. */
  function ConnectsIn(events: seq<Event>, id: string, from: real): nat {
    if events == [] then 0
    else (if Reconnects(events[0], id, from) then 1 else 0) + ConnectsIn(events[1..], id, from)
  }

  // ----- How much can be accepted in any 60 seconds -----

  /** What can still be accepted in the span at `from`, from time `now` on, without a new connection in it. */
  function Budget(clients: Clients, id: string, from: real, now: real, config: Config): int {
    if now < from then 2 * config.Limit()
    else if id !in clients || clients[id].windowStart >= from + WINDOW then 0
    else if clients[id].windowStart >= from then config.Limit() - clients[id].count
    else 2 * config.Limit() - clients[id].count
  }

  predicate Metered(clients: Clients, id: string, now: real, config: Config) {
    id in clients ==> clients[id].windowStart <= now && clients[id].count <= config.Limit()
  }

  /** What one event does to the meter of a client that makes no new connection. */
  lemma MeterMoves(clients: Clients, e: Event, id: string, config: Config)
    requires !(e.id == id && e.action.Connect?)
    ensures var next := Next(clients, e, config); var accepted := Accepted(clients, e, id, config);
      && (id in next ==> id in clients)
      && (accepted ==> id in next)
      && (id in next && !accepted ==>
            next[id].windowStart == clients[id].windowStart && next[id].count == clients[id].count)
      && (accepted ==>
            if e.at - clients[id].windowStart >= WINDOW then next[id].windowStart == e.at && next[id].count == 1
            else next[id].windowStart == clients[id].windowStart
                 && next[id].count == clients[id].count + 1 <= config.Limit())
      && (e.action.Message? && e.id == id && id in clients ==>
            (accepted <==> e.at - clients[id].windowStart >= WINDOW || clients[id].count < config.Limit()))
  {
    if e.id == id && e.action.Message? && id in clients {
      assert Next(clients, e, config)[id] == Charged(clients[id], e.at, config);
    }
  }

  lemma MessageUsesBudget(clients: Clients, e: Event, id: string, from: real, since: real, config: Config)
    requires Metered(clients, id, since, config) && since <= e.at && !(e.id == id && e.action.Connect?)
    ensures var next := Next(clients, e, config);
      && Metered(next, id, e.at, config)
      && Budget(next, id, from, e.at, config)
         + (if Accepted(clients, e, id, config) && InSpan(e.at, from) then 1 else 0)
         <= Budget(clients, id, from, since, config)
  {
    hide Next, Accepted;
    MeterMoves(clients, e, id, config);
  }

  /** A new connection in the span adds one limit to the budget. */
  lemma ConnectRaisesBudget(clients: Clients, e: Event, id: string, from: real, since: real, config: Config)
    requires Metered(clients, id, since, config) && since <= e.at && e.id == id && e.action.Connect?
    ensures var next := Next(clients, e, config);
      && Metered(next, id, e.at, config) && !Accepted(clients, e, id, config)
      && Budget(next, id, from, e.at, config) <=
           Budget(clients, id, from, since, config) + if Reconnects(e, id, from) then config.Limit() else 0
  {
  }

  lemma {:induction false} WithinBudget(
      clients: Clients, events: seq<Event>, id: string, from: real, since: real, config: Config)
    requires Metered(clients, id, since, config) && ClockRuns(events, since)
    ensures AcceptedIn(clients, events, id, from, config) <=
      Budget(clients, id, from, since, config) + ConnectsIn(events, id, from) * config.Limit()
    decreases |events|
  {
    hide Next, Accepted, Metered, Budget;
    if events == [] {
      BudgetIsNotNegative(clients, id, from, since, config);
    } else {
      var e := events[0];
      if e.id == id && e.action.Connect? {
        ConnectRaisesBudget(clients, e, id, from, since, config);
      } else {
        MessageUsesBudget(clients, e, id, from, since, config);
      }
      forall i | 0 <= i < |events[1..]|
        ensures e.at <= events[1..][i].at
      {
        assert events[1..][i] == events[i + 1];
      }
      WithinBudget(Next(clients, e, config), events[1..], id, from, e.at, config);
      OneMore(if Reconnects(e, id, from) then 1 else 0, ConnectsIn(events[1..], id, from), config.Limit());
    }
  }

  lemma OneMore(a: nat, n: nat, limit: nat)
    requires a <= 1
    ensures (a + n) * limit == (if a == 1 then limit else 0) + n * limit
  {
  }

  lemma BudgetIsNotNegative(clients: Clients, id: string, from: real, now: real, config: Config)
    requires Metered(clients, id, now, config)
    ensures Budget(clients, id, from, now, config) >= 0
  {
  }

  /** Over any run on a clock that never goes back, whatever other clients do, and however often the
      client disconnects and connects again, what it has accepted in any 60 seconds is at most twice the
      limit and once more for every connection it asks for in that time. */
  lemma AcceptedIsBounded(clients: Clients, events: seq<Event>, id: string, from: real, since: real, config: Config)
    requires Metered(clients, id, since, config) && ClockRuns(events, since)
    ensures AcceptedIn(clients, events, id, from, config) <= (2 + ConnectsIn(events, id, from)) * config.Limit()
  {
    WithinBudget(clients, events, id, from, since, config);
    OneMoreTwice(ConnectsIn(events, id, from), config.Limit());
  }

  lemma OneMoreTwice(n: nat, limit: nat)
    ensures (2 + n) * limit == 2 * limit + n * limit
  {
  }

  /** A client id that was free is metered once it is registered, so its first connection alone is good
      for at most twice the limit. */
  lemma AtMostTwiceTheLimit(
      clients: Clients, role: string, cursor: int, events: seq<Event>, id: string, from: real, since: real,
      config: Config)
    requires CanRegister(clients, id, config) && ClockRuns(events, since) && ConnectsIn(events, id, from) == 0
    ensures var registered := Next(clients, Event(since, id, Connect(role, cursor)), config);
      AcceptedIn(registered, events, id, from, config) <= 2 * config.Limit()
  {
    AcceptedIsBounded(Next(clients, Event(since, id, Connect(role, cursor)), config), events, id, from, since, config);
  }

  // ----- The bound is reached -----

  function Burst(n: nat, at: real, id: string): seq<Event> {
    if n == 0 then [] else [Event(at, id, Message)] + Burst(n - 1, at, id)
  }

  /** The run accepts `n` messages of a burst and then goes on with the client still connected. */
  ghost predicate AcceptsThen(
      clients: Clients, n: nat, at: real, id: string, rest: seq<Event>, from: real, config: Config, start: real)
  {
    exists after: Clients ::
      && id in after && after[id].windowStart == start && |after| == |clients|
      && AcceptedIn(clients, Burst(n, at, id) + rest, id, from, config) == n + AcceptedIn(after, rest, id, from, config)
  }

  lemma {:induction false} BurstAccepted(
      clients: Clients, n: nat, at: real, id: string, rest: seq<Event>, from: real, config: Config)
    requires id in clients && at - clients[id].windowStart < WINDOW && InSpan(at, from)
    requires clients[id].count + n == config.Limit()
    ensures AcceptsThen(clients, n, at, id, rest, from, config, clients[id].windowStart)
  {
    hide AcceptedIn, AcceptsThen;
    if n == 0 {
      NothingLeft(clients, at, id, rest, from, config);
    } else {
      var next := AfterMessage(clients, id, at, config);
      FirstOfBurst(clients, n, at, id, rest, from, config);
      BurstAccepted(next, n - 1, at, id, rest, from, config);
      OneMoreAccepted(clients, next, n, at, id, rest, from, config, clients[id].windowStart);
    }
  }

  lemma NothingLeft(clients: Clients, at: real, id: string, rest: seq<Event>, from: real, config: Config)
    requires id in clients
    ensures AcceptsThen(clients, 0, at, id, rest, from, config, clients[id].windowStart)
  {
    hide AcceptedIn;
    assert Burst(0, at, id) + rest == rest;
    assert AcceptedIn(clients, Burst(0, at, id) + rest, id, from, config)
      == 0 + AcceptedIn(clients, rest, id, from, config);
  }

  lemma UpdateKeepsSize(clients: Clients, id: string, c: EventClient)
    requires id in clients
    ensures |clients[id := c]| == |clients|
  {
    assert clients[id := c].Keys == clients.Keys;
  }

  /** A whole window's worth that opens a new window. */
  lemma BurstOpensWindow(clients: Clients, at: real, id: string, rest: seq<Event>, from: real, config: Config)
    requires id in clients && at - clients[id].windowStart >= WINDOW && InSpan(at, from)
    ensures AcceptsThen(clients, config.Limit(), at, id, rest, from, config, at)
  {
    hide AcceptedIn, Burst, AcceptsThen;
    var n, next := config.Limit(), AfterMessage(clients, id, at, config);
    FirstOfBurst(clients, n, at, id, rest, from, config);
    OpensWindow(clients, id, at, config);
    BurstAccepted(next, n - 1, at, id, rest, from, config);
    OneMoreAccepted(clients, next, n, at, id, rest, from, config, at);
  }

  lemma OpensWindow(clients: Clients, id: string, at: real, config: Config)
    requires id in clients && at - clients[id].windowStart >= WINDOW
    ensures var next := AfterMessage(clients, id, at, config);
      id in next && next[id].windowStart == at && next[id].count == 1 && Allows(clients, id, at, config)
  {
  }

  lemma FirstOfBurst(
      clients: Clients, n: nat, at: real, id: string, rest: seq<Event>, from: real, config: Config)
    requires n > 0 && InSpan(at, from) && Allows(clients, id, at, config)
    ensures var next := AfterMessage(clients, id, at, config);
      && |next| == |clients|
      && AcceptedIn(clients, Burst(n, at, id) + rest, id, from, config)
           == 1 + AcceptedIn(next, Burst(n - 1, at, id) + rest, id, from, config)
  {
    var all := Burst(n, at, id) + rest;
    assert all[0] == Event(at, id, Message) && all[1..] == Burst(n - 1, at, id) + rest;
    UpdateKeepsSize(clients, id, Charged(clients[id], at, config));
  }

  lemma OneMoreAccepted(
      clients: Clients, next: Clients, n: nat, at: real, id: string, rest: seq<Event>, from: real, config: Config,
      start: real)
    requires n > 0 && |next| == |clients| && AcceptsThen(next, n - 1, at, id, rest, from, config, start)
    requires AcceptedIn(clients, Burst(n, at, id) + rest, id, from, config)
      == 1 + AcceptedIn(next, Burst(n - 1, at, id) + rest, id, from, config)
    ensures AcceptsThen(clients, n, at, id, rest, from, config, start)
  {
    hide AcceptedIn, Burst;
    var after: Clients :| id in after && after[id].windowStart == start && |after| == |next|
      && AcceptedIn(next, Burst(n - 1, at, id) + rest, id, from, config)
         == n - 1 + AcceptedIn(after, rest, id, from, config);
    assert AcceptedIn(clients, Burst(n, at, id) + rest, id, from, config)
      == n + AcceptedIn(after, rest, id, from, config);
  }

  /** `n` times: disconnect, connect again, and send a whole limit's worth. */
  function Rejoins(n: nat, limit: nat, at: real, id: string): seq<Event> {
    if n == 0 then [] else Rejoin(at, id) + (Burst(limit, at, id) + Rejoins(n - 1, limit, at, id))
  }

  function Rejoin(at: real, id: string): seq<Event> { [Event(at, id, Disconnect), Event(at, id, Connect("", 0))] }

  function Rejoined(clients: Clients, at: real, id: string): Clients {
    (clients - {id})[id := NewClient("", 0, at)]
  }

  lemma RejoinWorks(clients: Clients, at: real, id: string, rest: seq<Event>, from: real, config: Config)
    requires id in clients && |clients| <= config.Places()
    ensures var back := Rejoined(clients, at, id);
      && |back| == |clients| && id in back && back[id] == NewClient("", 0, at)
      && AcceptedIn(clients, Rejoin(at, id) + rest, id, from, config) == AcceptedIn(back, rest, id, from, config)
  {
    var all, left, back := Rejoin(at, id) + rest, clients - {id}, Rejoined(clients, at, id);
    assert left.Keys == clients.Keys - {id} && back.Keys == clients.Keys;
    assert |left| == |clients| - 1 && |back| == |clients|;
    assert all[0] == Event(at, id, Disconnect) && all[1..][0] == Event(at, id, Connect("", 0)) && all[1..][1..] == rest;
    assert Next(clients, all[0], config) == left && Next(left, all[1], config) == back;
    assert AcceptedIn(clients, all, id, from, config) == AcceptedIn(left, all[1..], id, from, config);
    assert AcceptedIn(left, all[1..], id, from, config) == AcceptedIn(back, all[1..][1..], id, from, config);
  }

  lemma {:induction false} RejoinsAccepted(clients: Clients, n: nat, at: real, id: string, from: real, config: Config)
    requires id in clients && |clients| <= config.Places() && InSpan(at, from)
    ensures AcceptedIn(clients, Rejoins(n, config.Limit(), at, id), id, from, config) == n * config.Limit()
    decreases n
  {
    hide Burst, AcceptedIn, Rejoin, Rejoined;
    if n == 0 {
      NothingAccepted(clients, id, from, config);
    } else {
      var limit := config.Limit();
      var rest := Rejoins(n - 1, limit, at, id);
      var back := Rejoined(clients, at, id);
      RejoinWorks(clients, at, id, Burst(limit, at, id) + rest, from, config);
      BurstAccepted(back, limit, at, id, rest, from, config);
      var after: Clients :| id in after && after[id].windowStart == at && |after| == |back|
        && AcceptedIn(back, Burst(limit, at, id) + rest, id, from, config)
           == limit + AcceptedIn(after, rest, id, from, config);
      RejoinsAccepted(after, n - 1, at, id, from, config);
      OneMore(1, n - 1, limit);
    }
  }

  lemma NothingAccepted(clients: Clients, id: string, from: real, config: Config)
    ensures AcceptedIn(clients, [], id, from, config) == 0
  {
  }

  lemma {:induction false} RejoinsConnect(n: nat, limit: nat, at: real, id: string, from: real)
    requires InSpan(at, from)
    ensures ConnectsIn(Rejoins(n, limit, at, id), id, from) == n
  {
    if n > 0 {
      var rest := Rejoins(n - 1, limit, at, id);
      var all := Rejoins(n, limit, at, id);
      assert all[1..][1..] == Burst(limit, at, id) + rest;
      RejoinsConnect(n - 1, limit, at, id, from);
      BurstConnectsNot(limit, at, id, rest, from);
    }
  }

  lemma {:induction false} BurstConnectsNot(n: nat, at: real, id: string, rest: seq<Event>, from: real)
    ensures ConnectsIn(Burst(n, at, id) + rest, id, from) == ConnectsIn(rest, id, from)
  {
    if n == 0 {
      assert Burst(n, at, id) + rest == rest;
    } else {
      assert (Burst(n, at, id) + rest)[1..] == Burst(n - 1, at, id) + rest;
      BurstConnectsNot(n - 1, at, id, rest, from);
    }
  }

  /** One window's worth at the very end of a window, one at the start of the next, and then `n` times a
      new connection with one more. */
  function Busiest(n: nat, limit: nat, start: real, id: string): seq<Event> {
    Burst(limit, start + 59.0, id) + (Burst(limit, start + 60.0, id) + Rejoins(n, limit, start + 60.0, id))
  }

  predicate AllAt(events: seq<Event>, at: real) { forall i :: 0 <= i < |events| ==> events[i].at == at }

  lemma {:induction false} BurstAt(n: nat, at: real, id: string)
    ensures AllAt(Burst(n, at, id), at)
  {
    if n > 0 {
      BurstAt(n - 1, at, id);
    }
  }

  lemma {:induction false} RejoinsAt(n: nat, limit: nat, at: real, id: string)
    ensures AllAt(Rejoins(n, limit, at, id), at)
  {
    if n > 0 {
      BurstAt(limit, at, id);
      RejoinsAt(n - 1, limit, at, id);
    }
  }

  lemma BusiestClockRuns(n: nat, limit: nat, start: real, id: string)
    ensures ClockRuns(Busiest(n, limit, start, id), start)
  {
    hide Burst, Rejoins;
    var first, second := Burst(limit, start + 59.0, id), Burst(limit, start + 60.0, id);
    var rest := second + Rejoins(n, limit, start + 60.0, id);
    BurstAt(limit, start + 59.0, id);
    BurstAt(limit, start + 60.0, id);
    RejoinsAt(n, limit, start + 60.0, id);
    assert AllAt(rest, start + 60.0);
    OneAfterTheOther(first, start + 59.0, rest, start + 60.0, start);
  }

  lemma OneAfterTheOther(a: seq<Event>, first: real, b: seq<Event>, second: real, since: real)
    requires AllAt(a, first) && AllAt(b, second) && since <= first <= second
    ensures ClockRuns(a + b, since)
  {
  }

  /** The bound is reached for every limit and every number of new connections: without any, by twice the
      limit; a client id that connects again gets more than that. */
  lemma BoundIsReached(clients: Clients, n: nat, id: string, config: Config)
    requires id in clients && clients[id].count == 0 && |clients| <= config.Places()
    ensures var start, limit := clients[id].windowStart, config.Limit();
      var events := Busiest(n, limit, start, id);
      && ClockRuns(events, start) && Metered(clients, id, start, config)
      && ConnectsIn(events, id, start + 59.0) == n
      && AcceptedIn(clients, events, id, start + 59.0, config) == (2 + n) * limit
  {
    hide AcceptedIn, Burst, Rejoins, ConnectsIn, ClockRuns;
    BusiestClockRuns(n, config.Limit(), clients[id].windowStart, id);
    var start, limit := clients[id].windowStart, config.Limit();
    var rejoins, from := Rejoins(n, limit, start + 60.0, id), start + 59.0;
    var second := Burst(limit, start + 60.0, id) + rejoins;
    BurstConnectsNot(limit, from, id, second, from);
    BurstConnectsNot(limit, start + 60.0, id, rejoins, from);
    RejoinsConnect(n, limit, start + 60.0, id, from);
    BurstAccepted(clients, limit, from, id, second, from, config);
    var between: Clients :| id in between && between[id].windowStart == start && |between| == |clients|
      && AcceptedIn(clients, Burst(limit, from, id) + second, id, from, config)
         == limit + AcceptedIn(between, second, id, from, config);
    BurstOpensWindow(between, start + 60.0, id, rejoins, from, config);
    var last: Clients :| id in last && last[id].windowStart == start + 60.0 && |last| == |between|
      && AcceptedIn(between, second, id, from, config) == limit + AcceptedIn(last, rejoins, id, from, config);
    RejoinsAccepted(last, n, start + 60.0, id, from, config);
    OneMoreTwice(n, limit);
  }

  // ----- Those who keep to the limit are never refused -----

  lemma {:induction false} SentBefore(events: seq<Event>, id: string, from: real, k: nat)
    requires k <= |events|
    ensures SentIn(events[..k], id, from) <= SentIn(events, id, from)
    decreases |events|
  {
    if k == |events| {
      assert events[..k] == events;
    } else {
      var most := events[..|events| - 1];
      assert most[..k] == events[..k];
      SentBefore(most, id, from, k);
    }
  }

  function AfterRun(clients: Clients, events: seq<Event>, config: Config): Clients {
    if events == [] then clients
    else Next(AfterRun(clients, events[..|events| - 1], config), events[|events| - 1], config)
  }

  /** What is charged to the current window was sent in it. */
  ghost predicate Charges(after: Clients, events: seq<Event>, id: string, since: real) {
    id in after ==>
      && after[id].count <= SentIn(events, id, after[id].windowStart)
      && after[id].windowStart <= (if events == [] then since else events[|events| - 1].at)
  }

  lemma {:induction false} ChargedWasSent(clients: Clients, events: seq<Event>, id: string, since: real, config: Config)
    requires id in clients ==> clients[id].windowStart <= since && clients[id].count == 0
    requires ClockRuns(events, since)
    ensures Charges(AfterRun(clients, events, config), events, id, since)
  {
    hide Next, Allows;
    if events != [] {
      var before, e := events[..|events| - 1], events[|events| - 1];
      ChargedWasSent(clients, before, id, since, config);
      var was := AfterRun(clients, before, config);
      assert before != [] ==> before[|before| - 1].at <= e.at;
      if e.id == id && e.action.Connect? {
        ConnectCharges(was, e, config);
      } else {
        MeterMoves(was, e, id, config);
      }
    }
  }

  lemma ConnectCharges(clients: Clients, e: Event, config: Config)
    requires e.action.Connect?
    ensures var next := Next(clients, e, config);
      e.id in next ==> (next[e.id].count == 0 && next[e.id].windowStart == e.at) || (e.id in clients && next == clients)
  {
  }

  /** A client that sends at most the limit in every 60 seconds has every message accepted that it sends
      while connected, however often it connects again. */
  lemma NeverRefusedWithinLimit(clients: Clients, events: seq<Event>, id: string, since: real, k: nat, config: Config)
    requires id in clients ==> clients[id].windowStart <= since && clients[id].count == 0
    requires ClockRuns(events, since)
    requires forall from :: SentIn(events, id, from) <= config.Limit()
    requires k < |events| && events[k].id == id && events[k].action.Message?
    requires id in AfterRun(clients, events[..k], config)
    ensures Allows(AfterRun(clients, events[..k], config), id, events[k].at, config)
  {
    var before, now := events[..k], events[k].at;
    ChargedWasSent(clients, before, id, since, config);
    var c := AfterRun(clients, before, config)[id];
    SentBefore(events, id, c.windowStart, k + 1);
    assert events[..k + 1][..k] == before && events[..k + 1][k] == events[k];
    assert SentIn(events, id, c.windowStart) <= config.Limit();
  }

  // ----- How many clients there can be -----

  /** Registrations by many threads: each checks first and inserts later. */
  datatype Step = Check(id: string) | Insert(id: string, client: EventClient) | Drop(id: string)

  datatype Registering = Registering(clients: Clients, checked: multiset<string>)

  predicate CanStep(r: Registering, s: Step, config: Config) {
    match s
    case Check(id) => CanRegister(r.clients, id, config)
    case Insert(id, _) => id in r.checked
    case Drop(_) => true
  }

  function AfterStep(r: Registering, s: Step): Registering {
    match s
    case Check(id) => r.(checked := r.checked + multiset{id})
    case Insert(id, client) => Registering(r.clients[id := client], r.checked - multiset{id})
    case Drop(id) => r.(clients := r.clients - {id})
  }

  function AfterSteps(r: Registering, steps: seq<Step>): Registering
    decreases |steps|
  {
    if steps == [] then r else AfterSteps(AfterStep(r, steps[0]), steps[1..])
  }

  /** Every step is possible, and never more than `threads` are between their two critical sections. */
  predicate Interleaving(r: Registering, steps: seq<Step>, threads: nat, config: Config)
    decreases |steps|
  {
    && |r.checked| <= threads
    && (steps == []
        || (CanStep(r, steps[0], config) && Interleaving(AfterStep(r, steps[0]), steps[1..], threads, config)))
  }

  lemma StepKeepsPlaces(r: Registering, s: Step, threads: nat, config: Config)
    requires threads > 0 && CanStep(r, s, config)
    requires |r.clients| + |r.checked| <= config.Places() + threads - 1
    requires |AfterStep(r, s).checked| <= threads
    ensures |AfterStep(r, s).clients| + |AfterStep(r, s).checked| <= config.Places() + threads - 1
  {
    match s
    case Check(_) =>
    case Insert(id, client) => SizeAfterInsert(r.clients, id, client);
    case Drop(id) => SizeAfterDrop(r.clients, id);
  }

  lemma SizeAfterInsert(clients: Clients, id: string, client: EventClient)
    ensures |clients[id := client]| <= |clients| + 1
  {
    assert clients[id := client].Keys == clients.Keys + {id};
  }

  lemma SizeAfterDrop(clients: Clients, id: string)
    ensures |clients - {id}| <= |clients|
  {
    assert (clients - {id}).Keys == clients.Keys - {id};
  }

  /** Since the check and the insertion are two critical sections, the limit on clients can be passed,
      but by less than the number of registrations under way at a time: with one at a time it holds. */
  lemma {:induction false} ClientsStayBounded(r: Registering, steps: seq<Step>, threads: nat, config: Config)
    requires threads > 0 && Interleaving(r, steps, threads, config)
    requires |r.clients| + |r.checked| <= config.Places() + threads - 1
    ensures |AfterSteps(r, steps).clients| <= config.Places() + threads - 1
    decreases |steps|
  {
    if steps != [] {
      StepKeepsPlaces(r, steps[0], threads, config);
      ClientsStayBounded(AfterStep(r, steps[0]), steps[1..], threads, config);
    }
  }

  // ----- And how many there are -----

  const NOBODY := Registering(map[], multiset{})

  /** Some interleaving of at most `threads` registrations leads from the empty registry to `r`. */
  ghost predicate Reachable(r: Registering, threads: nat, config: Config) {
    exists steps :: Interleaving(NOBODY, steps, threads, config) && AfterSteps(NOBODY, steps) == r
  }

  lemma {:induction false} StepAppended(r: Registering, steps: seq<Step>, s: Step, threads: nat, config: Config)
    requires Interleaving(r, steps, threads, config) && CanStep(AfterSteps(r, steps), s, config)
    requires |AfterStep(AfterSteps(r, steps), s).checked| <= threads
    ensures Interleaving(r, steps + [s], threads, config)
    ensures AfterSteps(r, steps + [s]) == AfterStep(AfterSteps(r, steps), s)
    decreases |steps|
  {
    hide CanStep, AfterStep;
    if steps == [] {
      assert [] + [s] == [s] && [s][1..] == [];
      assert AfterSteps(AfterStep(r, s), []) == AfterStep(r, s) && Interleaving(AfterStep(r, s), [], threads, config);
    } else {
      assert (steps + [s])[1..] == steps[1..] + [s];
      StepAppended(AfterStep(r, steps[0]), steps[1..], s, threads, config);
    }
  }

  lemma ReachableStep(r: Registering, s: Step, threads: nat, config: Config)
    requires Reachable(r, threads, config) && CanStep(r, s, config) && |AfterStep(r, s).checked| <= threads
    ensures Reachable(AfterStep(r, s), threads, config)
  {
    hide CanStep, AfterStep, Interleaving, AfterSteps;
    var steps :| Interleaving(NOBODY, steps, threads, config) && AfterSteps(NOBODY, steps) == r;
    StepAppended(NOBODY, steps, s, threads, config);
  }

  lemma StartIsReachable(threads: nat, config: Config)
    ensures Reachable(NOBODY, threads, config)
  {
    assert Interleaving(NOBODY, [], threads, config) && AfterSteps(NOBODY, []) == NOBODY;
  }

  /** Different numbers, different names. */
  function Name(n: nat): string { seq(n, _ => 'c') }

  lemma NamesDiffer(m: nat, n: nat)
    ensures Name(m) == Name(n) ==> m == n
  {
    assert |Name(m)| == m && |Name(n)| == n;
  }

  function Members(n: nat, client: EventClient): Clients {
    if n == 0 then map[] else Members(n - 1, client)[Name(n - 1) := client]
  }

  lemma {:induction false} MembersCount(n: nat, client: EventClient)
    ensures |Members(n, client)| == n && forall m :: m >= n ==> Name(m) !in Members(n, client)
  {
    hide Name;
    if n > 0 {
      MembersCount(n - 1, client);
      assert Members(n, client).Keys == Members(n - 1, client).Keys + {Name(n - 1)};
      forall m | m >= n
        ensures Name(m) !in Members(n, client)
      {
        NamesDiffer(m, n - 1);
      }
    }
  }

  /** The names from `i` on, `n` of them. */
  function Waiting(i: nat, n: nat): multiset<string>
    decreases n
  {
    if n == 0 then multiset{} else multiset{Name(i)} + Waiting(i + 1, n - 1)
  }

  lemma {:induction false} WaitingGrows(i: nat, n: nat)
    ensures |Waiting(i, n)| == n && Waiting(i, n + 1) == Waiting(i, n) + multiset{Name(i + n)}
    decreases n
  {
    hide Name, Waiting;
    WaitingUnfolds(i, n);
    if n == 0 {
      WaitingUnfolds(i + 1, 0);
    } else {
      WaitingGrows(i + 1, n - 1);
      WaitingUnfolds(i, n - 1);
      OneAtEachEnd(Name(i), Waiting(i + 1, n - 1), Name(i + n));
    }
  }

  lemma OneAtEachEnd(a: string, m: multiset<string>, b: string)
    ensures multiset{a} + (m + multiset{b}) == multiset{a} + m + multiset{b}
    ensures |multiset{a} + m| == |m| + 1
  {
  }

  lemma WaitingUnfolds(i: nat, n: nat)
    ensures Waiting(i, 0) == multiset{} && Waiting(i, n + 1) == multiset{Name(i)} + Waiting(i + 1, n)
  {
    hide Name;
  }

  /** One after the other, as many as there are places. */
  lemma {:induction false} PlacesFill(n: nat, client: EventClient, threads: nat, config: Config)
    requires threads > 0 && n <= config.Places()
    ensures Reachable(Registering(Members(n, client), multiset{}), threads, config)
  {
    hide Reachable, Name;
    if n == 0 {
      StartIsReachable(threads, config);
    } else {
      PlacesFill(n - 1, client, threads, config);
      MembersCount(n - 1, client);
      var r, name := Registering(Members(n - 1, client), multiset{}), Name(n - 1);
      ReachableStep(r, Check(name), threads, config);
      var checked := AfterStep(r, Check(name));
      assert checked.checked == multiset{name};
      ReachableStep(checked, Insert(name, client), threads, config);
      assert AfterStep(checked, Insert(name, client)) == Registering(Members(n, client), multiset{});
    }
  }

  lemma NobodyWaits(i: nat)
    ensures Waiting(i, 0) == multiset{}
  {
  }

  /** With one place left, every thread passes its check. */
  lemma {:induction false} AllPassCheck(j: nat, client: EventClient, threads: nat, config: Config)
    requires j <= threads && threads > 0
    ensures var p := config.Places() - 1;
      Reachable(Registering(Members(p, client), Waiting(p, j)), threads, config)
  {
    hide Reachable, Name, Members, Waiting;
    var p := config.Places() - 1;
    if j == 0 {
      PlacesFill(p, client, threads, config);
      NobodyWaits(p);
    } else {
      AllPassCheck(j - 1, client, threads, config);
      MembersCount(p, client);
      WaitingGrows(p, j - 1);
      WaitingGrows(p, j);
      var r := Registering(Members(p, client), Waiting(p, j - 1));
      ReachableStep(r, Check(Name(p + j - 1)), threads, config);
    }
  }

  /** And then every thread inserts its client. */
  lemma {:induction false} AllInsert(j: nat, client: EventClient, threads: nat, config: Config)
    requires j <= threads && threads > 0
    ensures var p := config.Places() - 1;
      Reachable(Registering(Members(p + j, client), Waiting(p + j, threads - j)), threads, config)
  {
    hide Reachable, Name, Members, Waiting;
    var p := config.Places() - 1;
    if j == 0 {
      AllPassCheck(threads, client, threads, config);
    } else {
      AllInsert(j - 1, client, threads, config);
      var i := p + j - 1;
      OneInserts(i, threads - j, client);
      WaitingGrows(i + 1, threads - j);
      var r := Registering(Members(i, client), Waiting(i, threads - j + 1));
      ReachableStep(r, Insert(Name(i), client), threads, config);
    }
  }

  lemma OneInserts(i: nat, n: nat, client: EventClient)
    ensures Name(i) in Waiting(i, n + 1)
    ensures AfterStep(Registering(Members(i, client), Waiting(i, n + 1)), Insert(Name(i), client)) ==
      Registering(Members(i + 1, client), Waiting(i + 1, n))
  {
    hide Name;
    assert Waiting(i, n + 1) == multiset{Name(i)} + Waiting(i + 1, n);
    assert Members(i + 1, client) == Members(i, client)[Name(i) := client];
  }

  /** For every limit and every number of threads, the overshoot is as large as it can be. */
  lemma OvershootHappens(client: EventClient, threads: nat, config: Config)
    requires threads > 0
    ensures exists r :: Reachable(r, threads, config) && |r.clients| == config.Places() + threads - 1
  {
    hide Reachable, Members;
    AllInsert(threads, client, threads, config);
    MembersCount(config.Places() - 1 + threads, client);
  }

  /** So the limit on clients holds exactly if registrations come one at a time. */
  lemma LimitHoldsIff(client: EventClient, threads: nat, config: Config)
    requires threads > 0
    ensures (forall r :: Reachable(r, threads, config) ==> |r.clients| <= config.Places()) <==> threads == 1
  {
    forall r | Reachable(r, threads, config)
      ensures |r.clients| <= config.Places() + threads - 1
    {
      var steps :| Interleaving(NOBODY, steps, threads, config) && AfterSteps(NOBODY, steps) == r;
      ClientsStayBounded(NOBODY, steps, threads, config);
    }
    OvershootHappens(client, threads, config);
  }
}
