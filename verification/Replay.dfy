/** Replay of a journal of events from a cursor, while events are appended and old ones pruned. */
module Replay {
  import opened Options
  import opened Characters

  const MAX_REPLAY_LIMIT := 500

  /** Payload values are as text, with missing values as the empty text. */
  datatype Event = Event(id: nat, subject: string, payload: Option<map<string, string>>)

  type Journal = seq<Event>

  datatype Kind = Snapshot | Events

  datatype Envelope = Envelope(
    kind: Kind, cursor: nat, oldest: Option<nat>, latest: Option<nat>,
    resetRequired: bool, moreAvailable: bool, events: seq<Event>)

  /** Who asks: nothing is filtered without a role. */
  datatype Scope = Scope(role: Option<string>, agentIds: seq<string>)

  // ----- What a client may see -----

  predicate EndsWith(s: string, tail: string) { |tail| <= |s| && s[|s| - |tail|..] == tail }

  predicate NamesAgent(key: string) { EndsWith(key, "agent_id") || key == "entity_id" || key == "subject_id" }

  predicate EventAllowed(e: Event, allowed: set<string>) {
    || allowed == {}
    || e.subject in allowed
    || (e.payload.Some? && exists key :: key in e.payload.value && NamesAgent(key) && e.payload.value[key] in allowed)
  }

  predicate Visible(e: Event, scope: Scope) {
    scope.role.None? || EventAllowed(e, set id | id in scope.agentIds && !IsBlank(id))
  }

  function VisibleOnly(events: seq<Event>, scope: Scope): seq<Event> {
    if events == [] then []
    else (if Visible(events[0], scope) then [events[0]] else []) + VisibleOnly(events[1..], scope)
  }

  // ----- What that means -----

  ghost predicate IsAgentKey(key: string) {
    key in ["entity_id", "subject_id"] || exists before: string :: key == before + "agent_id"
  }

  /** The event is about `id`: its subject, or its payload under a key that names an agent. */
  ghost predicate IsAbout(e: Event, id: string) {
    || e.subject == id
    || (e.payload.Some? && exists key :: key in e.payload.value && e.payload.value[key] == id && IsAgentKey(key))
  }

  /** The client has an id that is not blank, and the event is about it. */
  ghost predicate IsTheirs(e: Event, scope: Scope) {
    exists id :: id in scope.agentIds && (exists i :: 0 <= i < |id| && !IsSpace(id[i])) && IsAbout(e, id)
  }

  /** The client has no role, or only blank ids. */
  ghost predicate SeesEverything(scope: Scope) {
    scope.role == None || forall id, i :: id in scope.agentIds && 0 <= i < |id| ==> IsSpace(id[i])
  }

  ghost predicate Sees(e: Event, scope: Scope) { SeesEverything(scope) || IsTheirs(e, scope) }

  lemma EndsWithIff(s: string, tail: string)
    ensures EndsWith(s, tail) <==> exists before: string :: s == before + tail
  {
    if EndsWith(s, tail) {
      assert s == s[..|s| - |tail|] + tail;
    }
    if before: string :| s == before + tail {
      assert s[|s| - |tail|..] == tail;
    }
  }

  lemma IsAboutIff(e: Event, allowed: set<string>)
    requires allowed != {}
    ensures EventAllowed(e, allowed) <==> exists id :: id in allowed && IsAbout(e, id)
  {
    hide EndsWith;
    if e.payload.Some? {
      forall key | key in e.payload.value
        ensures NamesAgent(key) <==> IsAgentKey(key)
      {
        EndsWithIff(key, "agent_id");
      }
    }
    if id :| id in allowed && IsAbout(e, id) {
      assert EventAllowed(e, allowed);
    }
    if EventAllowed(e, allowed) {
      if e.subject in allowed {
        assert IsAbout(e, e.subject);
      } else {
        var key :| key in e.payload.value && NamesAgent(key) && e.payload.value[key] in allowed;
        assert IsAbout(e, e.payload.value[key]);
      }
    }
  }

  lemma VisibleIff(e: Event, scope: Scope)
    ensures Visible(e, scope) <==> Sees(e, scope)
  {
    hide IsAbout, EventAllowed;
    var allowed := set id | id in scope.agentIds && !IsBlank(id);
    if allowed == {} {
      forall id, i | id in scope.agentIds && 0 <= i < |id| ensures scope.role == None || IsSpace(id[i]) {
        assert id !in allowed;
      }
      NothingForbidden(e);
    } else {
      var id :| id in allowed;
      IsAboutIff(e, allowed);
    }
  }

  lemma NothingForbidden(e: Event)
    ensures EventAllowed(e, {})
  {
  }

  // ----- Queries on the journal -----

  function After(journal: Journal, id: nat): seq<Event> {
    if journal == [] then []
    else (if journal[0].id > id then [journal[0]] else []) + After(journal[1..], id)
  }

  function ListEvents(journal: Journal, after: nat, limit: nat): seq<Event> {
    var found := After(journal, after);
    if |found| <= limit then found else found[..limit]
  }

  function ListRecentEvents(journal: Journal, limit: nat): seq<Event> {
    if |journal| <= limit then journal else journal[|journal| - limit..]
  }

  function Oldest(journal: Journal): Option<nat> { if journal == [] then None else Some(journal[0].id) }

  function Latest(journal: Journal): Option<nat> { if journal == [] then None else Some(journal[|journal| - 1].id) }

  // ----- The envelope -----

  function Clamped(limit: int): nat {
    if limit < 1 then 1 else if limit > MAX_REPLAY_LIMIT then MAX_REPLAY_LIMIT else limit
  }

  predicate NeedsReset(journal: Journal, after: nat) {
    after > 0 && Oldest(journal).Some? && after + 1 < Oldest(journal).value
  }

  function Page(seen: Journal, read: Journal, after: nat, limit: int): seq<Event> {
    if after == 0 || NeedsReset(seen, after) then ListRecentEvents(read, Clamped(limit))
    else ListEvents(read, after, Clamped(limit))
  }

  function NextCursor(seen: Journal, read: Journal, after: nat, limit: int): nat {
    var page := Page(seen, read, after, limit);
    var latest := if Latest(seen).Some? then Latest(seen).value else 0;
    if page != [] then page[|page| - 1].id else if after <= latest then after else latest
  }

  /** `envelope`: the bounds come from one look at the journal, the events from a later one. */
  function EnvelopeOf(seen: Journal, read: Journal, afterId: int, limit: int, scope: Scope): Envelope {
    var after := if afterId < 0 then 0 else afterId;
    var cursor := NextCursor(seen, read, after, limit);
    Envelope(
      if after == 0 || NeedsReset(seen, after) then Snapshot else Events,
      cursor, Oldest(seen), Latest(seen), NeedsReset(seen, after),
      Latest(seen).Some? && cursor < Latest(seen).value,
      VisibleOnly(Page(seen, read, after, limit), scope))
  }

  // ----- Journals in order -----

  predicate Ordered(journal: Journal) {
    forall i, j :: 0 <= i < j < |journal| ==> journal[i].id < journal[j].id
  }

  /** The filter keeps exactly the events that the client sees, each once and in order. */
  lemma {:induction false} VisibleOnlyIff(events: Journal, scope: Scope)
    requires Ordered(events)
    ensures Ordered(VisibleOnly(events, scope))
    ensures forall e :: e in VisibleOnly(events, scope) <==> e in events && Sees(e, scope)
  {
    hide Visible, Sees;
    if events != [] {
      VisibleIff(events[0], scope);
      VisibleOnlyIff(events[1..], scope);
      forall e | e in VisibleOnly(events[1..], scope) ensures e.id > events[0].id {
        var i :| 0 <= i < |events[1..]| && events[1..][i] == e;
        assert e == events[i + 1];
      }
      assert events == [events[0]] + events[1..];
    }
  }

  /** Journals in order with the same events are the same. */
  lemma {:induction false} OrderedIsUnique(a: Journal, b: Journal)
    requires Ordered(a) && Ordered(b) && forall e :: e in a <==> e in b
    ensures a == b
  {
    NoneOrBoth(a, b);
    if a != [] {
      assert a[0] in b && b[0] in a;
      assert a == [a[0]] + a[1..] && b == [b[0]] + b[1..];
      assert a[0] == b[0];
      forall e ensures e in a[1..] <==> e in b[1..] {
        assert e in a[1..] <==> e in a && e != a[0];
        assert e in b[1..] <==> e in b && e != b[0];
      }
      OrderedIsUnique(a[1..], b[1..]);
    }
  }

  lemma NoneOrBoth(a: Journal, b: Journal)
    requires forall e :: e in a <==> e in b
    ensures a == [] <==> b == []
  {
    if a != [] {
      assert a[0] in b;
    }
    if b != [] {
      assert b[0] in a;
    }
  }

  /** How many events have an id up to `id`. */
  function Position(journal: Journal, id: nat): (n: nat)
    requires Ordered(journal)
    ensures n <= |journal|
    ensures forall i :: 0 <= i < |journal| ==> (journal[i].id <= id <==> i < n)
  {
    if journal == [] || journal[0].id > id then 0
    else
      assert forall i :: 0 <= i < |journal| - 1 ==> journal[1..][i] == journal[i + 1];
      1 + Position(journal[1..], id)
  }

  /** The events with an id after `low` and up to `high`. */
  function Between(journal: Journal, low: nat, high: nat): seq<Event> {
    if journal == [] then []
    else (if low < journal[0].id <= high then [journal[0]] else []) + Between(journal[1..], low, high)
  }

  lemma {:induction false} AfterIsSuffix(journal: Journal, id: nat)
    requires Ordered(journal)
    ensures After(journal, id) == journal[Position(journal, id)..]
  {
    if journal != [] {
      assert forall i :: 0 <= i < |journal| - 1 ==> journal[1..][i] == journal[i + 1];
      AfterIsSuffix(journal[1..], id);
      if journal[0].id > id {
        assert Position(journal[1..], id) == 0;
      }
    }
  }

  lemma {:induction false} BetweenIsSlice(journal: Journal, low: nat, high: nat)
    requires Ordered(journal) && low <= high
    ensures Position(journal, low) <= Position(journal, high)
    ensures Between(journal, low, high) == journal[Position(journal, low)..Position(journal, high)]
  {
    hide Ordered;
    if journal != [] {
      var rest := journal[1..];
      OrderedTail(journal);
      BetweenIsSlice(rest, low, high);
      if journal[0].id <= low {
        SliceOfTail(journal, Position(rest, low), Position(rest, high));
      } else if journal[0].id <= high {
        PositionIs(rest, low, 0);
        assert Between(rest, low, high) == rest[..Position(rest, high)];
        SliceWithHead(journal, Position(rest, high));
      } else {
        PositionIs(rest, high, 0);
      }
    }
  }

  lemma OrderedTail(journal: Journal)
    requires Ordered(journal) && journal != []
    ensures Ordered(journal[1..]) && (|journal| > 1 ==> journal[0].id < journal[1].id)
  {
  }

  lemma SliceOfTail(journal: Journal, i: nat, j: nat)
    requires journal != [] && i <= j <= |journal| - 1
    ensures journal[1..][i..j] == journal[i + 1..j + 1]
  {
  }

  lemma SliceWithHead(journal: Journal, j: nat)
    requires journal != [] && j <= |journal| - 1
    ensures [journal[0]] + journal[1..][..j] == journal[..j + 1]
  {
  }

  lemma PositionIs(journal: Journal, id: nat, n: nat)
    requires Ordered(journal) && n <= |journal|
    requires (n > 0 ==> journal[n - 1].id <= id) && (n < |journal| ==> journal[n].id > id)
    ensures Position(journal, id) == n
  {
    hide Ordered, Position;
    assert n > 0 ==> n - 1 < Position(journal, id);
    assert n < |journal| ==> !(n < Position(journal, id));
  }

  lemma PositionInSuffix(journal: Journal, k: nat, id: nat)
    requires Ordered(journal) && k <= |journal|
    ensures Ordered(journal[k..])
    ensures Position(journal[k..], id) == if Position(journal, id) <= k then 0 else Position(journal, id) - k
  {
    hide Position;
    var n := Position(journal, id);
    PositionIs(journal[k..], id, if n <= k then 0 else n - k);
  }

  // ----- The journal's whole history -----

  /** Everything ever appended, and how many of the first events have been pruned. */
  datatype World = World(all: Journal, pruned: nat) {
    ghost predicate Valid() { Ordered(all) && pruned <= |all| && (pruned == |all| ==> all == []) }
    function Kept(): Journal requires pruned <= |all| { all[pruned..] }
  }

  predicate CanAppend(all: Journal, e: Event) {
    all == [] || e.id > all[|all| - 1].id
  }

  /** No event after the cursor has been pruned. */
  predicate Covers(w: World, after: nat)
    requires w.pruned <= |w.all|
  {
    w.pruned == 0 || w.all[w.pruned - 1].id <= after
  }

  lemma OrderedAppend(all: Journal, e: Event)
    requires Ordered(all) && CanAppend(all, e)
    ensures Ordered(all + [e])
  {
  }

  /** The bounds and the events of a poll may see the journal at two moments; in between it may have
      grown and been pruned further. */
  ghost predicate Later(seen: World, read: World) {
    seen.Valid() && read.Valid() && seen.all <= read.all && seen.pruned <= read.pruned
  }

  /** No reset means that nothing after the cursor was missing when the bounds were read. */
  lemma NoResetCovers(w: World, after: nat)
    requires w.Valid() && after > 0 && !NeedsReset(w.Kept(), after)
    ensures Covers(w, after)
  {
    if w.pruned > 0 {
      assert w.Kept()[0] == w.all[w.pruned];
    }
  }

  function PageStart(read: World, after: nat): (n: nat)
    requires read.Valid()
    ensures n <= |read.all|
  {
    var k := Position(read.all, after);
    if k <= read.pruned then read.pruned else k
  }

  function PageEnd(read: World, after: nat, limit: int): (n: nat)
    requires read.Valid()
    ensures PageStart(read, after) <= n <= |read.all|
    ensures PageStart(read, after) < |read.all| ==> PageStart(read, after) < n
  {
    var start := PageStart(read, after);
    if |read.all| - start <= Clamped(limit) then |read.all| else start + Clamped(limit)
  }

  lemma PageIsSlice(seen: World, read: World, after: nat, limit: int)
    requires Later(seen, read) && after > 0 && !NeedsReset(seen.Kept(), after)
    ensures Page(seen.Kept(), read.Kept(), after, limit)
      == read.all[PageStart(read, after)..PageEnd(read, after, limit)]
  {
    hide Position, After, Ordered, NeedsReset;
    OrderedIfValid(read);
    PositionInSuffix(read.all, read.pruned, after);
    AfterIsSuffix(read.Kept(), after);
    assert After(read.Kept(), after) == read.all[PageStart(read, after)..];
  }

  lemma OrderedIfValid(w: World)
    requires w.Valid()
    ensures Ordered(w.all)
  {
  }

  /** Where the cursor goes when there is a page, and when there is none. */
  lemma CursorAfterPage(seen: World, read: World, after: nat, limit: int)
    requires Later(seen, read) && after > 0 && !NeedsReset(seen.Kept(), after)
    ensures var cursor := NextCursor(seen.Kept(), read.Kept(), after, limit);
      var start, end := PageStart(read, after), PageEnd(read, after, limit);
      && (start == end ==>
            cursor <= after && (seen.all != [] && after <= seen.all[|seen.all| - 1].id ==> cursor == after))
      && (start < end ==>
            cursor == read.all[end - 1].id && after < cursor && Position(read.all, cursor) == end
            && Position(read.all, after) <= start)
  {
    hide Page, Position, Ordered, NeedsReset;
    PageIsSlice(seen, read, after, limit);
    var start, end := PageStart(read, after), PageEnd(read, after, limit);
    if start < end {
      IdsRise(read.all, end - 1);
      PositionIs(read.all, read.all[end - 1].id, end);
    }
    assert seen.all != [] ==> Latest(seen.Kept()) == Some(seen.all[|seen.all| - 1].id);
  }

  lemma IdsRise(journal: Journal, i: nat)
    requires Ordered(journal) && i < |journal|
    ensures i + 1 < |journal| ==> journal[i].id < journal[i + 1].id
    ensures journal[i].id <= journal[|journal| - 1].id
  {
  }

  /** The events behind the cursor that were pruned before the page was read. */
  function Missed(read: World, after: nat): seq<Event>
    requires read.Valid()
  {
    read.all[Position(read.all, after)..PageStart(read, after)]
  }

  lemma NothingMissedIff(read: World, after: nat)
    requires read.Valid()
    ensures Missed(read, after) == [] <==> Covers(read, after)
  {
    hide Position;
  }

  /** The main result about one poll from a cursor that is not 0. Without a reset, what it hands out, behind
      what had been pruned already, is exactly the visible events ever appended between the old cursor and
      the new one, in order. So nothing is missing exactly if nothing pruned behind the old cursor was
      visible, in particular if nothing behind it was pruned. */
  lemma PollIsGapFree(seen: World, read: World, after: nat, limit: int, scope: Scope)
    requires Later(seen, read) && 0 < after && !NeedsReset(seen.Kept(), after)
    ensures var e := EnvelopeOf(seen.Kept(), read.Kept(), after, limit, scope);
      var between := VisibleOnly(Between(read.all, after, e.cursor), scope);
      && !e.resetRequired
      && between == VisibleOnly(Missed(read, after), scope) + e.events
      && (e.events == between <==> VisibleOnly(Missed(read, after), scope) == [])
      && (Covers(read, after) ==> e.events == between)
  {
    hide Page, VisibleOnly, Between, Position, Missed;
    var page := Page(seen.Kept(), read.Kept(), after, limit);
    PageAndMissed(seen, read, after, limit);
    VisibleOfConcat(Missed(read, after), page, scope);
    NothingMissedIff(read, after);
    NothingVisible(scope);
  }

  lemma {:induction false} VisibleOfConcat(a: seq<Event>, b: seq<Event>, scope: Scope)
    ensures VisibleOnly(a + b, scope) == VisibleOnly(a, scope) + VisibleOnly(b, scope)
  {
    if a == [] {
      assert a + b == b;
    } else {
      assert (a + b)[1..] == a[1..] + b;
      VisibleOfConcat(a[1..], b, scope);
    }
  }

  lemma NothingVisible(scope: Scope)
    ensures VisibleOnly([], scope) == []
  {
  }

  lemma {:induction false} AllVisible(events: seq<Event>)
    ensures VisibleOnly(events, Scope(None, [])) == events
  {
    if events != [] {
      AllVisible(events[1..]);
    }
  }

  lemma PageAndMissed(seen: World, read: World, after: nat, limit: int)
    requires Later(seen, read) && after > 0 && !NeedsReset(seen.Kept(), after)
    ensures Between(read.all, after, NextCursor(seen.Kept(), read.Kept(), after, limit))
      == Missed(read, after) + Page(seen.Kept(), read.Kept(), after, limit)
  {
    hide Page, Between, Position, NextCursor, Ordered, NeedsReset;
    OrderedIfValid(read);
    var cursor := NextCursor(seen.Kept(), read.Kept(), after, limit);
    PageIsSlice(seen, read, after, limit);
    CursorAfterPage(seen, read, after, limit);
    if PageStart(read, after) == PageEnd(read, after, limit) {
      NothingBetween(read.all, after, cursor);
      assert PageStart(read, after) == |read.all| == Position(read.all, after);
    } else {
      BetweenIsSlice(read.all, after, cursor);
    }
  }

  lemma {:induction false} NothingBetween(journal: Journal, low: nat, high: nat)
    requires high <= low
    ensures Between(journal, low, high) == []
  {
    if journal != [] {
      NothingBetween(journal[1..], low, high);
    }
  }

  /** A snapshot or a reset hands out the newest events and moves the cursor to the newest of them. */
  lemma SnapshotIsNewest(seen: World, read: World, after: nat, limit: int)
    requires Later(seen, read) && read.all != [] && (after == 0 || NeedsReset(seen.Kept(), after))
    ensures var e := EnvelopeOf(seen.Kept(), read.Kept(), after, limit, Scope(None, []));
      && e.kind.Snapshot?
      && e.cursor == read.all[|read.all| - 1].id && e.cursor >= after
      && |e.events| <= |read.all| && e.events == read.all[|read.all| - |e.events|..]
      && |e.events| == (if |read.Kept()| <= Clamped(limit) then |read.Kept()| else Clamped(limit))
  {
    hide ListRecentEvents, Ordered, VisibleOnly;
    var page := Page(seen.Kept(), read.Kept(), after, limit);
    AllVisible(page);
    RecentIsSuffix(read, Clamped(limit));
    if after > 0 {
      assert seen.Kept()[0] == read.all[seen.pruned];
      IdsRise(read.all, seen.pruned);
    }
  }

  lemma RecentIsSuffix(w: World, limit: nat)
    requires w.Valid() && w.all != [] && limit > 0
    ensures var page := ListRecentEvents(w.Kept(), limit);
      && 0 < |page| <= |w.all| && page == w.all[|w.all| - |page|..] && page[|page| - 1] == w.all[|w.all| - 1]
      && |page| == (if |w.Kept()| <= limit then |w.Kept()| else limit)
  {
    hide Ordered;
  }

  /** The cursor never moves back while it is not ahead of the journal, and moves on when it can. */
  lemma CursorAdvances(seen: World, read: World, after: nat, limit: int)
    requires Later(seen, read) && 0 < after
    requires seen.all != [] && after <= seen.all[|seen.all| - 1].id
    ensures var cursor := NextCursor(seen.Kept(), read.Kept(), after, limit);
      && after <= cursor <= read.all[|read.all| - 1].id
      && (after < read.all[|read.all| - 1].id ==>
            after < cursor && Position(read.all, after) < Position(read.all, cursor))
  {
    hide Page, Position, NextCursor, Ordered;
    OrderedIfValid(read);
    var newest := |read.all| - 1;
    assert read.all[|seen.all| - 1] == seen.all[|seen.all| - 1];
    IdsRise(read.all, |seen.all| - 1);
    if NeedsReset(seen.Kept(), after) {
      SnapshotIsNewest(seen, read, after, limit);
      PositionIs(read.all, read.all[newest].id, |read.all|);
    } else {
      CursorAfterPage(seen, read, after, limit);
      if PageStart(read, after) < PageEnd(read, after, limit) {
        IdsRise(read.all, PageEnd(read, after, limit) - 1);
      }
    }
  }

  // ----- What an envelope says, field by field -----

  predicate IsOldest(id: nat, journal: Journal) {
    (exists i :: 0 <= i < |journal| && journal[i].id == id) && forall i :: 0 <= i < |journal| ==> id <= journal[i].id
  }

  predicate IsLatest(id: nat, journal: Journal) {
    (exists i :: 0 <= i < |journal| && journal[i].id == id) && forall i :: 0 <= i < |journal| ==> journal[i].id <= id
  }

  lemma EnvelopeBounds(seen: Journal, read: Journal, afterId: int, limit: int, scope: Scope)
    requires Ordered(seen)
    ensures var e := EnvelopeOf(seen, read, afterId, limit, scope);
      && (e.oldest == None <==> seen == []) && (seen != [] ==> IsOldest(e.oldest.value, seen))
      && (e.latest == None <==> seen == []) && (seen != [] ==> IsLatest(e.latest.value, seen))
      && (e.resetRequired <==> afterId > 0 && seen != [] && forall i :: 0 <= i < |seen| ==> seen[i].id > afterId + 1)
      && (e.kind == Snapshot <==> afterId <= 0 || e.resetRequired)
      && (e.moreAvailable <==> exists i :: 0 <= i < |seen| && seen[i].id > e.cursor)
  {
    hide NextCursor, Page, VisibleOnly;
  }

  /** How many of the events at hand a page holds. */
  predicate IsPageLength(n: nat, available: nat, limit: int) {
    n <= available && n <= 500 && (n <= limit || n <= 1)
    && (n == available || n == 500 || n == limit || (n == 1 && limit < 1))
  }

  /** The envelope hands out what the client sees of one slice of the journal. A snapshot is made from its
      newest events, an answer to a cursor from the first events behind it. The returned cursor is that of
      the last event of the slice, whether the client sees it or not. */
  lemma EnvelopeHandsOut(seen: Journal, read: Journal, afterId: int, limit: int, scope: Scope)
    returns (low: nat, high: nat)
    requires Ordered(seen) && Ordered(read)
    ensures low <= high <= |read|
    ensures var e := EnvelopeOf(seen, read, afterId, limit, scope);
      && (e.kind == Snapshot ==> high == |read| && IsPageLength(high - low, |read|, limit))
      && (e.kind == Events ==>
            && (forall i :: 0 <= i < |read| ==> (low <= i <==> read[i].id > afterId))
            && IsPageLength(high - low, |read| - low, limit))
      && (low < high ==> e.cursor == read[high - 1].id)
      && (low == high ==> e.cursor == (var latest := if seen == [] then 0 else seen[|seen| - 1].id;
                                       if afterId < 0 then 0 else if afterId < latest then afterId else latest))
      && Ordered(e.events)
      && (forall x :: x in e.events <==> x in read[low..high] && Sees(x, scope))
  {
    hide VisibleOnly, NeedsReset, Sees, ListRecentEvents, ListEvents, IsPageLength, Ordered;
    var after := if afterId < 0 then 0 else afterId;
    if after == 0 || NeedsReset(seen, after) {
      low := RecentSlice(read, limit);
      high := |read|;
    } else {
      low, high := SliceBehind(read, after, limit);
    }
    assert Page(seen, read, after, limit) == read[low..high];
    SliceIsOrdered(read, low, high);
    VisibleOnlyIff(read[low..high], scope);
  }

  lemma RecentSlice(read: Journal, limit: int) returns (low: nat)
    ensures low <= |read| && ListRecentEvents(read, Clamped(limit)) == read[low..|read|]
    ensures IsPageLength(|read| - low, |read|, limit)
  {
    low := |read| - |ListRecentEvents(read, Clamped(limit))|;
  }

  lemma SliceBehind(read: Journal, after: nat, limit: int) returns (low: nat, high: nat)
    requires Ordered(read)
    ensures low <= high <= |read| && ListEvents(read, after, Clamped(limit)) == read[low..high]
    ensures forall i :: 0 <= i < |read| ==> (low <= i <==> read[i].id > after)
    ensures IsPageLength(high - low, |read| - low, limit)
  {
    hide Position, After, Ordered;
    low := Position(read, after);
    AfterIsSuffix(read, after);
    high := low + |ListEvents(read, after, Clamped(limit))|;
  }

  lemma SliceIsOrdered(journal: Journal, low: nat, high: nat)
    requires Ordered(journal) && low <= high <= |journal|
    ensures Ordered(journal[low..high])
  {
  }

  // ----- Whole runs of a poller that takes over the returned cursor -----

  /** Between its two looks at the journal, a poll may be overtaken by appends and by a prune. */
  datatype Action =
    | Append(event: Event)
    | Prune(count: nat)
    | Poll(limit: int, grown: seq<Event>, count: nat)

  ghost predicate CanAct(w: World, a: Action) {
    match a
    case Append(event) => CanAppend(w.all, event)
    case Prune(count) => w.pruned + count < |w.all|
    case Poll(_, grown, count) => Ordered(w.all + grown) && (count > 0 ==> w.pruned + count < |w.all + grown|)
  }

  function AfterAction(w: World, a: Action): World {
    match a
    case Append(event) => w.(all := w.all + [event])
    case Prune(count) => w.(pruned := w.pruned + count)
    case Poll(_, grown, count) => World(w.all + grown, w.pruned + count)
  }

  function Answer(w: World, cursor: nat, a: Action, scope: Scope): Envelope
    requires a.Poll? && w.pruned <= |w.all| && AfterAction(w, a).pruned <= |AfterAction(w, a).all|
  {
    EnvelopeOf(w.Kept(), AfterAction(w, a).Kept(), cursor, a.limit, scope)
  }

  function CursorAfter(w: World, cursor: nat, a: Action, scope: Scope): nat
    requires w.pruned <= |w.all| && AfterAction(w, a).pruned <= |AfterAction(w, a).all|
  {
    if a.Poll? then Answer(w, cursor, a, scope).cursor else cursor
  }

  ghost predicate CanRun(w: World, actions: seq<Action>)
    decreases |actions|
  {
    actions == [] || (CanAct(w, actions[0]) && CanRun(AfterAction(w, actions[0]), actions[1..]))
  }

  function AfterRun(w: World, actions: seq<Action>): World
    decreases |actions|
  {
    if actions == [] then w else AfterRun(AfterAction(w, actions[0]), actions[1..])
  }

  lemma ActionKeepsValid(w: World, a: Action)
    requires w.Valid() && CanAct(w, a)
    ensures AfterAction(w, a).Valid() && Later(w, AfterAction(w, a))
    ensures w.all != [] ==> AfterAction(w, a).all != []
  {
    if a.Append? {
      OrderedAppend(w.all, a.event);
    }
  }

  /** The cursor at the end of a run. */
  ghost function Cursor(w: World, cursor: nat, actions: seq<Action>, scope: Scope): nat
    requires w.Valid() && CanRun(w, actions)
    decreases |actions|
  {
    if actions == [] then cursor
    else
      ActionKeepsValid(w, actions[0]);
      Cursor(AfterAction(w, actions[0]), CursorAfter(w, cursor, actions[0], scope), actions[1..], scope)
  }

  /** All events the run's polls hand out, one poll after the other. */
  ghost function Delivered(w: World, cursor: nat, actions: seq<Action>, scope: Scope): seq<Event>
    requires w.Valid() && CanRun(w, actions)
    decreases |actions|
  {
    if actions == [] then []
    else
      ActionKeepsValid(w, actions[0]);
      (if actions[0].Poll? then Answer(w, cursor, actions[0], scope).events else [])
      + Delivered(AfterAction(w, actions[0]), CursorAfter(w, cursor, actions[0], scope), actions[1..], scope)
  }

  ghost predicate ResetFree(w: World, cursor: nat, actions: seq<Action>, scope: Scope)
    requires w.Valid() && CanRun(w, actions)
    decreases |actions|
  {
    actions == [] ||
    (ActionKeepsValid(w, actions[0]);
     && (actions[0].Poll? ==> !Answer(w, cursor, actions[0], scope).resetRequired)
     && ResetFree(AfterAction(w, actions[0]), CursorAfter(w, cursor, actions[0], scope), actions[1..], scope))
  }

  ghost predicate OnTrack(w: World, cursor: nat) {
    w.Valid() && w.all != [] && 0 < cursor <= w.all[|w.all| - 1].id
  }

  lemma ActionKeepsOnTrack(w: World, cursor: nat, a: Action, scope: Scope)
    requires OnTrack(w, cursor) && CanAct(w, a)
    ensures OnTrack(AfterAction(w, a), CursorAfter(w, cursor, a, scope))
    ensures cursor <= CursorAfter(w, cursor, a, scope)
  {
    ActionKeepsValid(w, a);
    var next := AfterAction(w, a);
    assert next.all[|w.all| - 1] == w.all[|w.all| - 1];
    if a.Poll? {
      CursorAdvances(w, next, cursor, a.limit);
    }
  }

  lemma {:induction false} RunGrows(w: World, cursor: nat, actions: seq<Action>, scope: Scope)
    requires OnTrack(w, cursor) && CanRun(w, actions)
    ensures OnTrack(AfterRun(w, actions), Cursor(w, cursor, actions, scope))
    ensures w.all <= AfterRun(w, actions).all && cursor <= Cursor(w, cursor, actions, scope)
    decreases |actions|
  {
    if actions != [] {
      ActionKeepsValid(w, actions[0]);
      ActionKeepsOnTrack(w, cursor, actions[0], scope);
      RunGrows(AfterAction(w, actions[0]), CursorAfter(w, cursor, actions[0], scope), actions[1..], scope);
    }
  }

  /** What has been appended up to a cursor does not change when more is appended. */
  lemma BetweenOfLonger(journal: Journal, longer: Journal, low: nat, high: nat)
    requires Ordered(journal) && Ordered(longer) && journal <= longer && low <= high
    requires journal != [] && high <= journal[|journal| - 1].id
    ensures Between(longer, low, high) == Between(journal, low, high)
  {
    hide Between, Position, Ordered;
    BetweenIsSlice(journal, low, high);
    BetweenIsSlice(longer, low, high);
    SamePosition(journal, longer, low);
    SamePosition(journal, longer, high);
    PrefixSlice(journal, longer, Position(journal, low), Position(journal, high));
  }

  lemma PrefixSlice(journal: Journal, longer: Journal, i: nat, j: nat)
    requires journal <= longer && i <= j <= |journal|
    ensures longer[i..j] == journal[i..j]
  {
    assert journal == longer[..|journal|];
  }

  lemma SamePosition(journal: Journal, longer: Journal, id: nat)
    requires Ordered(journal) && Ordered(longer) && journal <= longer
    requires journal != [] && id <= journal[|journal| - 1].id
    ensures Position(longer, id) == Position(journal, id)
  {
    var n, last := Position(journal, id), |journal| - 1;
    assert n == |journal| ==> journal[last].id == id;
    assert longer[last] == journal[last];
    PositionIs(longer, id, n);
  }

  lemma BetweenSplits(journal: Journal, low: nat, middle: nat, high: nat)
    requires Ordered(journal) && low <= middle <= high
    ensures Between(journal, low, high) == Between(journal, low, middle) + Between(journal, middle, high)
  {
    hide Between, Position, Ordered;
    BetweenIsSlice(journal, low, middle);
    BetweenIsSlice(journal, middle, high);
    BetweenIsSlice(journal, low, high);
  }

  /** How many visible events the run's polls miss: those behind the cursor that are pruned between the two
      looks of a poll. */
  ghost function MissedIn(w: World, cursor: nat, actions: seq<Action>, scope: Scope): nat
    requires w.Valid() && CanRun(w, actions)
    decreases |actions|
  {
    if actions == [] then 0
    else
      ActionKeepsValid(w, actions[0]);
      (if actions[0].Poll? then |VisibleOnly(Missed(AfterAction(w, actions[0]), cursor), scope)| else 0)
      + MissedIn(AfterAction(w, actions[0]), CursorAfter(w, cursor, actions[0], scope), actions[1..], scope)
  }

  /** The main result about runs. However appends, prunes and polls alternate and overlap, a run without a
      reset hands out as many visible events as were appended between its first and its last cursor, less
      those missed; and it hands out exactly those events, each once and in order, whether or not they have
      been pruned since, if and only if none was missed. */
  lemma {:induction false} ResetFreeRunIsGapFreeIff(w: World, cursor: nat, actions: seq<Action>, scope: Scope)
    requires OnTrack(w, cursor) && CanRun(w, actions) && ResetFree(w, cursor, actions, scope)
    ensures var between :=
        VisibleOnly(Between(AfterRun(w, actions).all, cursor, Cursor(w, cursor, actions, scope)), scope);
      var delivered := Delivered(w, cursor, actions, scope);
      && |between| == |delivered| + MissedIn(w, cursor, actions, scope)
      && (delivered == between <==> MissedIn(w, cursor, actions, scope) == 0)
    decreases |actions|
  {
    hide Between, VisibleOnly, EnvelopeOf, OnTrack, Missed;
    var end := AfterRun(w, actions).all;
    if actions == [] {
      NothingBetween(end, cursor, cursor);
      NothingVisible(scope);
    } else {
      var a := actions[0];
      OnTrackIsValid(w, cursor);
      ActionKeepsValid(w, a);
      ActionKeepsOnTrack(w, cursor, a, scope);
      var next, moved := AfterAction(w, a), CursorAfter(w, cursor, a, scope);
      ResetFreeRunIsGapFreeIff(next, moved, actions[1..], scope);
      RunGrows(next, moved, actions[1..], scope);
      OnTrackIsValid(next, moved);
      OnTrackIsValid(AfterRun(w, actions), Cursor(w, cursor, actions, scope));
      var last := Cursor(w, cursor, actions, scope);
      BetweenSplits(end, cursor, moved, last);
      VisibleOfConcat(Between(end, cursor, moved), Between(end, moved, last), scope);
      if a.Poll? {
        PollDelivers(w, cursor, a, scope);
        BetweenOfLonger(next.all, end, cursor, moved);
        PartsAgreeIff(VisibleOnly(Missed(next, cursor), scope), Answer(w, cursor, a, scope).events,
                      Delivered(next, moved, actions[1..], scope),
                      VisibleOnly(Between(end, moved, last), scope));
      } else {
        NothingBetween(end, cursor, cursor);
        NothingVisible(scope);
      }
    }
  }

  /** What such a run hands out if it misses nothing: exactly the events that the client sees among those
      appended behind its first cursor and up to its last one, each once and in order. */
  lemma RunHandsOutTheirs(w: World, cursor: nat, actions: seq<Action>, scope: Scope)
    requires OnTrack(w, cursor) && CanRun(w, actions) && ResetFree(w, cursor, actions, scope)
    requires MissedIn(w, cursor, actions, scope) == 0
    ensures var given, last := Delivered(w, cursor, actions, scope), Cursor(w, cursor, actions, scope);
      && Ordered(given)
      && forall e :: e in given <==> e in AfterRun(w, actions).all && cursor < e.id <= last && Sees(e, scope)
  {
    hide Between, Ordered, Sees, VisibleOnly, Position;
    var end, last := AfterRun(w, actions).all, Cursor(w, cursor, actions, scope);
    ResetFreeRunIsGapFreeIff(w, cursor, actions, scope);
    RunGrows(w, cursor, actions, scope);
    OnTrackIsValid(AfterRun(w, actions), last);
    OrderedIfValid(AfterRun(w, actions));
    BetweenIsSlice(end, cursor, last);
    SliceIsOrdered(end, Position(end, cursor), Position(end, last));
    BetweenIff(end, cursor, last);
    VisibleOnlyIff(Between(end, cursor, last), scope);
  }

  lemma {:induction false} BetweenIff(journal: Journal, low: nat, high: nat)
    ensures forall e :: e in Between(journal, low, high) <==> e in journal && low < e.id <= high
  {
    if journal != [] {
      BetweenIff(journal[1..], low, high);
      assert journal == [journal[0]] + journal[1..];
    }
  }

  /** So events that the client does not see make no difference to what it gets: two runs over journals that
      differ in such events only hand out the same events between the same cursors. */
  lemma OthersMakeNoDifference(w: World, v: World, cursor: nat, actions: seq<Action>, others: seq<Action>, scope: Scope)
    requires OnTrack(w, cursor) && CanRun(w, actions) && ResetFree(w, cursor, actions, scope)
    requires OnTrack(v, cursor) && CanRun(v, others) && ResetFree(v, cursor, others, scope)
    requires MissedIn(w, cursor, actions, scope) == 0 && MissedIn(v, cursor, others, scope) == 0
    requires Cursor(w, cursor, actions, scope) == Cursor(v, cursor, others, scope)
    requires forall e :: Sees(e, scope) ==> (e in AfterRun(w, actions).all <==> e in AfterRun(v, others).all)
    ensures Delivered(w, cursor, actions, scope) == Delivered(v, cursor, others, scope)
  {
    hide Ordered, Sees, CanRun, ResetFree, MissedIn, Delivered, Cursor, AfterRun;
    RunHandsOutTheirs(w, cursor, actions, scope);
    RunHandsOutTheirs(v, cursor, others, scope);
    OrderedIsUnique(Delivered(w, cursor, actions, scope), Delivered(v, cursor, others, scope));
  }

  /** Two lists one after the other, of which the second is not too long. */
  lemma PartsAgreeIff(missed: seq<Event>, events: seq<Event>, rest: seq<Event>, expected: seq<Event>)
    requires |rest| <= |expected|
    ensures events + rest == (missed + events) + expected <==> missed == [] && rest == expected
  {
    assert |(missed + events) + expected| == |missed| + |events| + |expected|;
    assert rest == (events + rest)[|events|..];
    assert expected == ((missed + events) + expected)[|missed| + |events|..];
    assert [] + events == events;
  }

  lemma OnTrackIsValid(w: World, cursor: nat)
    requires OnTrack(w, cursor)
    ensures w.Valid() && w.all != [] && 0 < cursor <= w.all[|w.all| - 1].id
  {
  }

  lemma PollDelivers(w: World, cursor: nat, a: Action, scope: Scope)
    requires w.Valid() && cursor > 0 && CanAct(w, a) && a.Poll? && !Answer(w, cursor, a, scope).resetRequired
    ensures AfterAction(w, a).Valid()
    ensures var e := Answer(w, cursor, a, scope);
      VisibleOnly(Between(AfterAction(w, a).all, cursor, e.cursor), scope)
      == VisibleOnly(Missed(AfterAction(w, a), cursor), scope) + e.events
  {
    hide Between, VisibleOnly, Page, Missed;
    ActionKeepsValid(w, a);
    PollIsGapFree(w, AfterAction(w, a), cursor, a.limit, scope);
  }

  /** No prune overtakes a poll. */
  predicate Unhurried(actions: seq<Action>) {
    forall i :: 0 <= i < |actions| && actions[i].Poll? ==> actions[i].count == 0
  }

  /** Then a run without a reset misses nothing, so it is gap-free. */
  lemma {:induction false} UnhurriedMissesNothing(w: World, cursor: nat, actions: seq<Action>, scope: Scope)
    requires OnTrack(w, cursor) && CanRun(w, actions) && ResetFree(w, cursor, actions, scope) && Unhurried(actions)
    ensures MissedIn(w, cursor, actions, scope) == 0
    decreases |actions|
  {
    hide VisibleOnly, EnvelopeOf, OnTrack, Missed;
    if actions != [] {
      var a := actions[0];
      OnTrackIsValid(w, cursor);
      ActionKeepsValid(w, a);
      ActionKeepsOnTrack(w, cursor, a, scope);
      assert forall i :: 0 <= i < |actions[1..]| ==> actions[1..][i] == actions[i + 1];
      UnhurriedMissesNothing(AfterAction(w, a), CursorAfter(w, cursor, a, scope), actions[1..], scope);
      if a.Poll? {
        UnhurriedPoll(w, cursor, a, scope);
        NothingVisible(scope);
      }
    }
  }

  lemma UnhurriedPoll(w: World, cursor: nat, a: Action, scope: Scope)
    requires w.Valid() && cursor > 0 && CanAct(w, a) && a.Poll? && a.count == 0
    requires !Answer(w, cursor, a, scope).resetRequired
    ensures AfterAction(w, a).Valid() && Missed(AfterAction(w, a), cursor) == []
  {
    hide VisibleOnly, Page, Missed;
    ActionKeepsValid(w, a);
    NoResetCovers(w, cursor);
    var next := AfterAction(w, a);
    if w.pruned > 0 {
      assert next.all[w.pruned - 1] == w.all[w.pruned - 1];
    }
    NothingMissedIff(next, cursor);
  }

  /** But a prune that overtakes a poll and takes an event it has not read yet makes a gap without a reset. */
  lemma OvertakenPollHasGap(w: World, cursor: nat, limit: int, count: nat)
    requires OnTrack(w, cursor) && !NeedsReset(w.Kept(), cursor)
    requires Position(w.all, cursor) < w.pruned + count < |w.all|
    ensures var everything, run := Scope(None, []), [Poll(limit, [], count)];
      && CanRun(w, run) && ResetFree(w, cursor, run, everything)
      && Delivered(w, cursor, run, everything) != Between(w.all, cursor, Cursor(w, cursor, run, everything))
  {
    hide Position, VisibleOnly, Page, Between, Missed, Ordered, NextCursor;
    var everything, a := Scope(None, []), Poll(limit, [], count);
    assert w.all + [] == w.all;
    ActionKeepsValid(w, a);
    var next := AfterAction(w, a);
    NothingMissedIff(next, cursor);
    AllVisible(Missed(next, cursor));
    PollIsGapFree(w, next, cursor, limit, everything);
    AllVisible(Between(next.all, cursor, Answer(w, cursor, a, everything).cursor));
    OnePoll(w, cursor, a, everything);
  }

  lemma OnePoll(w: World, cursor: nat, a: Action, scope: Scope)
    requires w.Valid() && CanAct(w, a) && a.Poll? && AfterAction(w, a).Valid()
    ensures CanRun(w, [a]) && Cursor(w, cursor, [a], scope) == Answer(w, cursor, a, scope).cursor
    ensures Delivered(w, cursor, [a], scope) == Answer(w, cursor, a, scope).events
    ensures ResetFree(w, cursor, [a], scope) <==> !Answer(w, cursor, a, scope).resetRequired
  {
    hide EnvelopeOf, CanAct, AfterAction, Ordered;
    assert [a][1..] == [];
    var next, moved := AfterAction(w, a), CursorAfter(w, cursor, a, scope);
    assert CanRun(next, []);
    assert Cursor(next, moved, [], scope) == moved && Delivered(next, moved, [], scope) == [];
    assert ResetFree(next, moved, [], scope);
  }

  /** What a client is not allowed to see does not hold its cursor back: the cursor, and whether a reset
      is needed, do not depend on the filter. */
  lemma {:induction false} CursorIgnoresScope(w: World, cursor: nat, actions: seq<Action>, a: Scope, b: Scope)
    requires w.Valid() && CanRun(w, actions)
    ensures Cursor(w, cursor, actions, a) == Cursor(w, cursor, actions, b)
    ensures ResetFree(w, cursor, actions, a) <==> ResetFree(w, cursor, actions, b)
    decreases |actions|
  {
    hide VisibleOnly, Page;
    if actions != [] {
      ActionKeepsValid(w, actions[0]);
      CursorIgnoresScope(AfterAction(w, actions[0]), CursorAfter(w, cursor, actions[0], a), actions[1..], a, b);
    }
  }

  function Polls(limit: int, n: nat): seq<Action> {
    if n == 0 then [] else [Poll(limit, [], 0)] + Polls(limit, n - 1)
  }

  /** A poller that keeps asking while nothing changes reaches the newest event. */
  lemma {:induction false} PollerCatchesUp(w: World, cursor: nat, limit: int, polls: nat, scope: Scope)
    requires OnTrack(w, cursor) && polls >= |w.all| - Position(w.all, cursor)
    ensures CanRun(w, Polls(limit, polls))
    ensures Cursor(w, cursor, Polls(limit, polls), scope) == w.all[|w.all| - 1].id
    decreases polls
  {
    hide Position, CanRun, Cursor, CursorAfter, AfterAction, CanAct, OnTrack;
    OnTrackIsValid(w, cursor);
    if polls == 0 {
      NothingRuns(w, cursor, scope);
      AllBehind(w, cursor);
    } else {
      var a := Poll(limit, [], 0);
      PollMoves(w, cursor, limit, scope);
      PollerCatchesUp(w, CursorAfter(w, cursor, a, scope), limit, polls - 1, scope);
      FirstAction(w, cursor, a, Polls(limit, polls - 1), scope);
    }
  }

  lemma AllBehind(w: World, cursor: nat)
    requires OnTrack(w, cursor) && Position(w.all, cursor) >= |w.all|
    ensures cursor == w.all[|w.all| - 1].id
  {
    hide Position, Ordered;
    assert |w.all| - 1 < Position(w.all, cursor);
  }

  /** A poll while nothing changes: there are fewer events behind the cursor than before, or none. */
  lemma PollMoves(w: World, cursor: nat, limit: int, scope: Scope)
    requires OnTrack(w, cursor)
    ensures var a := Poll(limit, [], 0); var moved := CursorAfter(w, cursor, a, scope);
      && CanAct(w, a) && AfterAction(w, a) == w && OnTrack(w, moved)
      && (Position(w.all, moved) > Position(w.all, cursor) || Position(w.all, moved) == |w.all|)
  {
    hide EnvelopeOf, Position, Ordered;
    NothingGrows(w, limit);
    ActionKeepsOnTrack(w, cursor, Poll(limit, [], 0), scope);
    CursorAdvances(w, w, cursor, limit);
    EnvelopeCursor(w, w, cursor, limit, scope);
    AtNewest(w.all, CursorAfter(w, cursor, Poll(limit, [], 0), scope));
  }

  lemma NothingRuns(w: World, cursor: nat, scope: Scope)
    requires w.Valid()
    ensures CanRun(w, []) && Cursor(w, cursor, [], scope) == cursor
  {
  }

  lemma FirstAction(w: World, cursor: nat, a: Action, rest: seq<Action>, scope: Scope)
    requires w.Valid() && CanAct(w, a) && CanRun(AfterAction(w, a), rest) && AfterAction(w, a).Valid()
    ensures CanRun(w, [a] + rest)
    ensures Cursor(w, cursor, [a] + rest, scope)
      == Cursor(AfterAction(w, a), CursorAfter(w, cursor, a, scope), rest, scope)
  {
    hide EnvelopeOf, Ordered, CanAct, AfterAction;
    assert ([a] + rest)[1..] == rest;
  }

  lemma NothingGrows(w: World, limit: int)
    requires w.Valid()
    ensures CanAct(w, Poll(limit, [], 0)) && AfterAction(w, Poll(limit, [], 0)) == w
  {
    assert w.all + [] == w.all;
  }

  lemma EnvelopeCursor(seen: World, read: World, after: nat, limit: int, scope: Scope)
    requires seen.pruned <= |seen.all| && read.pruned <= |read.all|
    ensures EnvelopeOf(seen.Kept(), read.Kept(), after, limit, scope).cursor
      == NextCursor(seen.Kept(), read.Kept(), after, limit)
  {
    hide VisibleOnly, NextCursor, Page;
  }

  lemma AtNewest(journal: Journal, id: nat)
    requires Ordered(journal) && journal != []
    ensures id >= journal[|journal| - 1].id ==> Position(journal, id) == |journal|
  {
  }

  // ----- The web socket loop, which takes over the cursor of a non-empty answer only -----

  function SocketCursor(w: World, cursor: nat, limit: int, scope: Scope): nat
    requires w.pruned <= |w.all|
  {
    var e := EnvelopeOf(w.Kept(), w.Kept(), cursor, limit, scope);
    if e.events != [] || e.resetRequired then e.cursor else cursor
  }

  /** Such a loop moves on exactly if something is left and the next page shows something, or resets. */
  lemma SocketMovesIff(w: World, cursor: nat, limit: int, scope: Scope)
    requires OnTrack(w, cursor)
    ensures SocketCursor(w, cursor, limit, scope) > cursor <==>
      cursor < w.all[|w.all| - 1].id
      && (NeedsReset(w.Kept(), cursor) || VisibleOnly(Page(w.Kept(), w.Kept(), cursor, limit), scope) != [])
  {
    hide Page, VisibleOnly, NextCursor, Ordered;
    CursorAdvances(w, w, cursor, limit);
  }

  /** A page full of events that a client may not see stops it for good: however many visible events
      are appended behind that page, it is sent nothing and its cursor stays where it is. */
  lemma SocketStalls(w: World, more: seq<Event>, cursor: nat, limit: int, scope: Scope)
    requires OnTrack(w, cursor) && !NeedsReset(w.Kept(), cursor) && Ordered(w.all + more)
    requires var page := Page(w.Kept(), w.Kept(), cursor, limit);
      |page| == Clamped(limit) && VisibleOnly(page, scope) == []
    ensures var grown := w.(all := w.all + more);
      && EnvelopeOf(grown.Kept(), grown.Kept(), cursor, limit, scope).events == []
      && SocketCursor(grown, cursor, limit, scope) == cursor
  {
    hide Page, VisibleOnly, NextCursor, Ordered, Position;
    var grown := w.(all := w.all + more);
    assert grown.Kept()[0] == w.Kept()[0];
    PageIsSlice(w, w, cursor, limit);
    PageIsSlice(grown, grown, cursor, limit);
    SamePosition(w.all, grown.all, cursor);
    PrefixSlice(w.all, grown.all, PageStart(w, cursor), PageEnd(w, cursor, limit));
  }
}
