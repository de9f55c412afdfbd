/** The panes of a tmux server: which window holds which panes, and the process of each pane. */
module Tmux {
  import opened Options

  datatype Process = Process(pid: int, ticks: Option<int>, cwd: string, sessions: set<string>)

  datatype Window = Window(session: string, name: string, panes: seq<string>)

  datatype Server = Server(windows: map<string, Window>, panes: map<string, Process>)

  predicate NoRepeats(s: seq<string>) {
    forall i, j :: 0 <= i < j < |s| ==> s[i] != s[j]
  }

  predicate Holds(t: Server, w: string, p: string) { w in t.windows && p in t.windows[w].panes }

  /** Every pane is in exactly one window, once, and every window has a pane. */
  ghost predicate Valid(t: Server) {
    && (forall w :: w in t.windows ==> t.windows[w].panes != [] && NoRepeats(t.windows[w].panes))
    && (forall w, p :: Holds(t, w, p) ==> p in t.panes)
    && (forall p :: p in t.panes ==> exists w :: Holds(t, w, p))
    && (forall v, w, p :: Holds(t, v, p) && Holds(t, w, p) ==> v == w)
  }

  function WindowOf(t: Server, p: string): (w: string)
    requires Valid(t) && p in t.panes
    ensures Holds(t, w, p) && forall v :: Holds(t, v, p) ==> v == w
  {
    var w :| w in t.windows && Holds(t, w, p);
    w
  }

  predicate HasSession(t: Server, session: string) {
    exists w :: w in t.windows && t.windows[w].session == session
  }

  // ----- Commands -----

  function Without(s: seq<string>, p: string): seq<string> {
    if s == [] then [] else (if s[0] == p then [] else [s[0]]) + Without(s[1..], p)
  }

  function InsertAfter(s: seq<string>, anchor: string, p: string): seq<string> {
    if s == [] then [] else [s[0]] + (if s[0] == anchor then [p] + s[1..] else InsertAfter(s[1..], anchor, p))
  }

  /** The windows without a pane; a window that loses its last pane goes. */
  function Detached(t: Server, p: string): map<string, Window> {
    map w | w in t.windows && Without(t.windows[w].panes, p) != [] ::
      t.windows[w].(panes := Without(t.windows[w].panes, p))
  }

  /** `break-pane` of a pane that is not alone, into a new window of an existing session. */
  function BreakPane(t: Server, p: string, session: string, name: string, window: string): Option<Server> {
    if p in t.panes && window !in t.windows && HasSession(t, session)
       && exists w :: w in t.windows && p in t.windows[w].panes && t.windows[w].panes != [p]
    then Some(t.(windows := Detached(t, p)[window := Window(session, name, [p])]))
    else None
  }

  /** It works exactly if the pane has company, the session is there, and the window is new. */
  lemma BreakPaneIff(t: Server, p: string, session: string, name: string, window: string)
    requires Valid(t)
    ensures BreakPane(t, p, session, name, window).Some? <==>
      && (exists w, q :: Holds(t, w, p) && Holds(t, w, q) && q != p)
      && (exists w :: w in t.windows && t.windows[w].session == session)
      && window !in t.windows
  {
    forall w | Holds(t, w, p)
      ensures t.windows[w].panes != [p] <==> exists q :: Holds(t, w, q) && q != p
    {
      var panes := t.windows[w].panes;
      if panes != [p] {
        var q := if panes[0] != p then panes[0] else panes[|panes| - 1];
        assert Holds(t, w, q) && q != p;
      }
    }
  }

  /** `join-pane`: the pane goes next to the anchor, into the anchor's window. */
  function JoinPane(t: Server, p: string, anchor: string): Option<Server> {
    if p in t.panes && anchor in t.panes && p != anchor then Some(t.(windows := Joined(t, p, anchor))) else None
  }

  function Joined(t: Server, p: string, anchor: string): map<string, Window> {
    map w | w in Detached(t, p) ::
      if anchor in Detached(t, p)[w].panes
      then Detached(t, p)[w].(panes := InsertAfter(Detached(t, p)[w].panes, anchor, p))
      else Detached(t, p)[w]
  }

  function NewWindow(t: Server, session: string, name: string, window: string, p: string, process: Process):
    Option<Server>
  {
    if window in t.windows || p in t.panes then None
    else Some(Server(t.windows[window := Window(session, name, [p])], t.panes[p := process]))
  }

  function SplitWindow(t: Server, anchor: string, p: string, process: Process): Option<Server> {
    if anchor !in t.panes || p in t.panes then None
    else Some(Server(Joined(t, p, anchor), t.panes[p := process]))
  }

  function KillPane(t: Server, p: string): Server { Server(Detached(t, p), t.panes - {p}) }

  function Named(t: Server, session: string, name: string): set<string> {
    set w | w in t.windows && t.windows[w].session == session && t.windows[w].name == name
  }

  function PanesIn(t: Server, windows: set<string>): set<string> {
    set w, p | w in t.windows && w in windows && p in t.windows[w].panes :: p
  }

  function WithoutWindows(t: Server, windows: set<string>): Server {
    Server(t.windows - windows, t.panes - PanesIn(t, windows))
  }

  /** `kill-window` by name: only a single window of that name in that session can be meant. */
  function KillWindow(t: Server, session: string, name: string): Server {
    if |Named(t, session, name)| == 1 then WithoutWindows(t, Named(t, session, name)) else t
  }

  // ----- What the commands do -----

  lemma {:induction false} WithoutMembers(s: seq<string>, p: string, q: string)
    ensures q in Without(s, p) <==> q in s && q != p
  {
    if s != [] {
      WithoutMembers(s[1..], p, q);
      assert s == [s[0]] + s[1..];
    }
  }

  lemma {:induction false} WithoutNoRepeats(s: seq<string>, p: string)
    requires NoRepeats(s)
    ensures NoRepeats(Without(s, p))
  {
    if s != [] {
      TailNoRepeats(s);
      WithoutNoRepeats(s[1..], p);
      WithoutMembers(s[1..], p, s[0]);
      if s[0] != p {
        ConsNoRepeats(s[0], Without(s[1..], p));
      }
    }
  }

  lemma TailNoRepeats(s: seq<string>)
    requires NoRepeats(s) && s != []
    ensures NoRepeats(s[1..]) && s[0] !in s[1..]
  {
  }

  lemma ConsNoRepeats(p: string, s: seq<string>)
    requires NoRepeats(s) && p !in s
    ensures NoRepeats([p] + s)
  {
  }

  lemma {:induction false} InsertedMembers(s: seq<string>, anchor: string, p: string, q: string)
    ensures q in InsertAfter(s, anchor, p) <==> q in s || (q == p && anchor in s)
  {
    if s != [] {
      InsertedMembers(s[1..], anchor, p, q);
      assert s == [s[0]] + s[1..];
    }
  }

  lemma {:induction false} InsertedNoRepeats(s: seq<string>, anchor: string, p: string)
    requires NoRepeats(s) && p !in s
    ensures NoRepeats(InsertAfter(s, anchor, p))
  {
    if s != [] {
      TailNoRepeats(s);
      if s[0] == anchor {
        ConsNoRepeats(p, s[1..]);
        ConsNoRepeats(s[0], [p] + s[1..]);
      } else {
        InsertedNoRepeats(s[1..], anchor, p);
        InsertedMembers(s[1..], anchor, p, s[0]);
        ConsNoRepeats(s[0], InsertAfter(s[1..], anchor, p));
      }
    }
  }

  ghost predicate ListsOk(windows: map<string, Window>) {
    forall w :: w in windows ==> windows[w].panes != [] && NoRepeats(windows[w].panes)
  }

  lemma DetachedHolds(t: Server, p: string, w: string, q: string)
    ensures Holds(t.(windows := Detached(t, p)), w, q) <==> Holds(t, w, q) && q != p
  {
    if w in t.windows {
      WithoutMembers(t.windows[w].panes, p, q);
    }
  }

  lemma DetachedLists(t: Server, p: string)
    requires ListsOk(t.windows)
    ensures ListsOk(Detached(t, p))
  {
    forall w | w in Detached(t, p)
      ensures NoRepeats(Detached(t, p)[w].panes)
    {
      WithoutNoRepeats(t.windows[w].panes, p);
    }
  }

  /** Which window holds which pane after a break, and that all else is as before. */
  lemma BreakMoves(t: Server, p: string, session: string, name: string, window: string)
    requires Valid(t) && BreakPane(t, p, session, name, window).Some?
    ensures var t' := BreakPane(t, p, session, name, window).value;
      && Valid(t') && t'.panes == t.panes
      && window in t'.windows && t'.windows[window] == Window(session, name, [p])
      && forall w, q :: Holds(t', w, q) <==> if q == p then w == window else Holds(t, w, q)
  {
    hide Detached;
    var t' := BreakPane(t, p, session, name, window).value;
    DetachedLists(t, p);
    forall w, q
      ensures Holds(t', w, q) <==> if q == p then w == window else Holds(t, w, q)
    {
      DetachedHolds(t, p, w, q);
    }
    HoldersGiveValid(t, t', p, window);
  }

  /** If every pane but one stays where it is, and that one has one home, the panes are still in order. */
  lemma HoldersGiveValid(t: Server, t': Server, p: string, home: string)
    requires Valid(t) && ListsOk(t'.windows) && p in t'.panes && t'.panes.Keys - {p} == t.panes.Keys - {p}
    requires forall w, q :: Holds(t', w, q) <==> if q == p then w == home else Holds(t, w, q)
    ensures Valid(t')
  {
    forall q | q in t'.panes
      ensures exists w :: Holds(t', w, q)
    {
      if q == p {
        assert Holds(t', home, p);
      } else {
        assert q in t'.panes.Keys - {p};
        var w :| Holds(t, w, q);
        assert Holds(t', w, q);
      }
    }
    forall w, q | Holds(t', w, q)
      ensures q in t'.panes
    {
      if q != p {
        assert Holds(t, w, q);
        assert q in t.panes.Keys - {p};
      }
    }
  }

  /** The windows after a join or a split, pane by pane. */
  lemma JoinedHolds(t: Server, p: string, anchor: string, w: string, q: string)
    requires p != anchor
    ensures Holds(t.(windows := Joined(t, p, anchor)), w, q) <==> if q == p then Holds(t, w, anchor) else Holds(t, w, q)
  {
    hide Detached;
    DetachedHolds(t, p, w, q);
    DetachedHolds(t, p, w, anchor);
    if w in Detached(t, p) {
      InsertedMembers(Detached(t, p)[w].panes, anchor, p, q);
    }
  }

  lemma JoinedLists(t: Server, p: string, anchor: string)
    requires ListsOk(t.windows) && p != anchor
    ensures ListsOk(Joined(t, p, anchor))
  {
    hide Detached;
    DetachedLists(t, p);
    forall w | w in Joined(t, p, anchor)
      ensures Joined(t, p, anchor)[w].panes != [] && NoRepeats(Joined(t, p, anchor)[w].panes)
    {
      var panes := Detached(t, p)[w].panes;
      DetachedHolds(t, p, w, p);
      assert p !in panes;
      InsertedNoRepeats(panes, anchor, p);
      InsertedMembers(panes, anchor, p, panes[0]);
    }
  }

  lemma JoinMoves(t: Server, p: string, anchor: string)
    requires Valid(t) && JoinPane(t, p, anchor).Some?
    ensures var t' := JoinPane(t, p, anchor).value;
      && Valid(t') && t'.panes == t.panes
      && WindowOf(t', p) == WindowOf(t', anchor) == WindowOf(t, anchor)
      && forall w, q :: Holds(t', w, q) <==> if q == p then w == WindowOf(t, anchor) else Holds(t, w, q)
  {
    hide Joined;
    var t' := JoinPane(t, p, anchor).value;
    JoinedLists(t, p, anchor);
    forall w, q
      ensures Holds(t', w, q) <==> if q == p then w == WindowOf(t, anchor) else Holds(t, w, q)
    {
      JoinedHolds(t, p, anchor, w, q);
    }
    HoldersGiveValid(t, t', p, WindowOf(t, anchor));
    assert Holds(t', WindowOf(t', p), p) && Holds(t', WindowOf(t', anchor), anchor);
  }

  lemma NewWindowWorks(t: Server, session: string, name: string, window: string, p: string, process: Process)
    requires Valid(t) && NewWindow(t, session, name, window, p, process).Some?
    ensures var t' := NewWindow(t, session, name, window, p, process).value;
      && Valid(t') && t'.panes == t.panes[p := process]
      && forall w, q :: Holds(t', w, q) <==> if q == p then w == window else Holds(t, w, q)
  {
    var t' := NewWindow(t, session, name, window, p, process).value;
    assert NoRepeats([p]);
    forall w, q
      ensures Holds(t', w, q) <==> if q == p then w == window else Holds(t, w, q)
    {
      assert Holds(t, w, q) ==> q in t.panes;
    }
    HoldersGiveValid(t, t', p, window);
  }

  lemma SplitWorks(t: Server, anchor: string, p: string, process: Process)
    requires Valid(t) && SplitWindow(t, anchor, p, process).Some?
    ensures var t' := SplitWindow(t, anchor, p, process).value;
      && Valid(t') && t'.panes == t.panes[p := process]
      && forall w, q :: Holds(t', w, q) <==> if q == p then w == WindowOf(t, anchor) else Holds(t, w, q)
  {
    hide Joined;
    var t' := SplitWindow(t, anchor, p, process).value;
    JoinedLists(t, p, anchor);
    forall w, q
      ensures Holds(t', w, q) <==> if q == p then w == WindowOf(t, anchor) else Holds(t, w, q)
    {
      JoinedHolds(t, p, anchor, w, q);
      assert Holds(t', w, q) <==> Holds(t.(windows := Joined(t, p, anchor)), w, q);
    }
    HoldersGiveValid(t, t', p, WindowOf(t, anchor));
  }

  lemma KillWorks(t: Server, p: string)
    requires Valid(t)
    ensures var t' := KillPane(t, p);
      && Valid(t') && t'.panes == t.panes - {p}
      && forall w, q :: Holds(t', w, q) <==> q != p && Holds(t, w, q)
  {
    hide Detached;
    var t' := KillPane(t, p);
    DetachedLists(t, p);
    forall w, q
      ensures Holds(t', w, q) <==> q != p && Holds(t, w, q)
    {
      DetachedHolds(t, p, w, q);
      assert Holds(t', w, q) <==> Holds(t.(windows := Detached(t, p)), w, q);
    }
    forall q | q in t'.panes
      ensures exists w :: Holds(t', w, q)
    {
      var w :| Holds(t, w, q);
      assert Holds(t', w, q);
    }
  }

  lemma WithoutWindowsWorks(t: Server, windows: set<string>)
    requires Valid(t)
    ensures var t' := WithoutWindows(t, windows);
      && Valid(t')
      && (forall w, q :: Holds(t', w, q) <==> Holds(t, w, q) && w !in windows)
      && (forall q :: q in t'.panes ==> q in t.panes && t'.panes[q] == t.panes[q])
  {
    var t' := WithoutWindows(t, windows);
    forall w, q
      ensures Holds(t', w, q) <==> Holds(t, w, q) && w !in windows
    {
      assert w in t'.windows <==> w in t.windows && w !in windows;
    }
    forall w, q | Holds(t', w, q)
      ensures q in t'.panes
    {
      assert Holds(t, w, q);
      assert forall v :: v in windows ==> !Holds(t, v, q);
      assert q !in PanesIn(t, windows);
    }
    forall q | q in t'.panes
      ensures exists w :: Holds(t', w, q)
    {
      var w :| Holds(t, w, q);
      assert w in windows ==> q in PanesIn(t, windows);
      assert Holds(t', w, q);
    }
  }

  lemma OnlyMember(s: set<string>, x: string)
    requires x in s && |s| == 1
    ensures s == {x}
  {
    assert |s - {x}| == 0;
    assert s == (s - {x}) + {x};
  }

  /** Killing by name takes the window that alone has the name, with its panes, and nothing else. */
  lemma KillWindowWorks(t: Server, session: string, name: string)
    requires Valid(t)
    ensures var t' := KillWindow(t, session, name);
      && Valid(t')
      && (forall w, q :: Holds(t', w, q) <==> Holds(t, w, q) && Named(t, session, name) != {w})
      && (forall w :: w in t'.windows ==> w in t.windows && t'.windows[w] == t.windows[w])
      && (forall q :: q in t'.panes ==> q in t.panes && t'.panes[q] == t.panes[q])
  {
    hide Valid, Holds, PanesIn, Named;
    var named := Named(t, session, name);
    WithoutWindowsWorks(t, named);
    if |named| == 1 {
      forall w
        ensures w in named <==> named == {w}
      {
        if w in named {
          OnlyMember(named, w);
        }
      }
    }
  }

  // ----- What others do to the server meanwhile -----

  datatype Outside =
    | Exits(pane: string)
    | Joins(pane: string, anchor: string)
    | Breaks(pane: string, session: string, name: string, window: string)
    | Opens(session: string, name: string, window: string, pane: string, process: Process)
    | Splits(anchor: string, pane: string, process: Process)

  function Or(changed: Option<Server>, t: Server): Server { if changed.Some? then changed.value else t }

  function AfterStep(t: Server, o: Outside): Server {
    match o
    case Exits(p) => KillPane(t, p)
    case Joins(p, anchor) => Or(JoinPane(t, p, anchor), t)
    case Breaks(p, session, name, window) => Or(BreakPane(t, p, session, name, window), t)
    case Opens(session, name, window, p, process) => Or(NewWindow(t, session, name, window, p, process), t)
    case Splits(anchor, p, process) => Or(SplitWindow(t, anchor, p, process), t)
  }

  function AfterSteps(t: Server, steps: seq<Outside>): Server
    decreases |steps|
  {
    if steps == [] then t else AfterSteps(AfterStep(t, steps[0]), steps[1..])
  }

  lemma StepKeepsValid(t: Server, o: Outside)
    requires Valid(t)
    ensures Valid(AfterStep(t, o))
  {
    hide Valid, KillPane, JoinPane, BreakPane, NewWindow, SplitWindow, Holds;
    match o
    case Exits(p) => KillWorks(t, p);
    case Joins(p, anchor) =>
      if JoinPane(t, p, anchor).Some? { JoinMoves(t, p, anchor); }
    case Breaks(p, session, name, window) =>
      if BreakPane(t, p, session, name, window).Some? { BreakMoves(t, p, session, name, window); }
    case Opens(session, name, window, p, process) =>
      if NewWindow(t, session, name, window, p, process).Some? { NewWindowWorks(t, session, name, window, p, process); }
    case Splits(anchor, p, process) =>
      if SplitWindow(t, anchor, p, process).Some? { SplitWorks(t, anchor, p, process); }
  }

  lemma {:induction false} StepsKeepValid(t: Server, steps: seq<Outside>)
    requires Valid(t)
    ensures Valid(AfterSteps(t, steps))
    decreases |steps|
  {
    hide Valid, AfterStep;
    if steps != [] {
      StepKeepsValid(t, steps[0]);
      StepsKeepValid(AfterStep(t, steps[0]), steps[1..]);
    }
  }

  lemma StepKeepsPane(t: Server, o: Outside, p: string)
    requires Valid(t) && p in t.panes && o != Exits(p)
    ensures p in AfterStep(t, o).panes && AfterStep(t, o).panes[p] == t.panes[p]
  {
  }

  /** Whatever others do, a pane whose process does not end stays. */
  lemma {:induction false} StepsKeepPane(t: Server, steps: seq<Outside>, p: string)
    requires Valid(t) && p in t.panes && Exits(p) !in steps
    ensures p in AfterSteps(t, steps).panes && AfterSteps(t, steps).panes[p] == t.panes[p]
    decreases |steps|
  {
    hide Valid, AfterStep;
    if steps != [] {
      StepKeepsValid(t, steps[0]);
      StepKeepsPane(t, steps[0], p);
      StepsKeepPane(AfterStep(t, steps[0]), steps[1..], p);
    }
  }
}
