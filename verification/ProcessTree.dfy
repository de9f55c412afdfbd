/** The walk over the children of a process, with a worklist and a set of pids already seen. */
module ProcessTree {
  /** One word of a `children` file: a number or something else. */
  datatype Token = Pid(pid: int) | Junk

  /** The child lists that can be read. A pid is looked up once, so it has one list. */
  type Children = map<int, seq<Token>>

  ghost predicate IsChild(children: Children, parent: int, child: int) {
    parent in children && Pid(child) in children[parent]
  }

  ghost predicate IsPath(children: Children, path: seq<int>) {
    path != [] && forall i :: 0 <= i < |path| - 1 ==> IsChild(children, path[i], path[i + 1])
  }

  ghost predicate Leads(children: Children, path: seq<int>, root: int, pid: int) {
    IsPath(children, path) && path[0] == root && path[|path| - 1] == pid
  }

  ghost predicate Reachable(children: Children, root: int, pid: int) {
    exists path :: Leads(children, path, root, pid)
  }

  predicate Increasing(s: seq<int>) {
    forall i, j :: 0 <= i < j < |s| ==> s[i] < s[j]
  }

  lemma ReachesItself(children: Children, root: int)
    ensures Reachable(children, root, root)
  {
    assert Leads(children, [root], root, root);
  }

  lemma ReachesChild(children: Children, root: int, pid: int, child: int)
    requires Reachable(children, root, pid) && IsChild(children, pid, child)
    ensures Reachable(children, root, child)
  {
    var path :| Leads(children, path, root, pid);
    assert Leads(children, path + [child], root, child);
  }

  /** Every child of a seen pid has been seen or is waiting. */
  ghost predicate Closed(children: Children, seen: set<int>, pending: seq<int>) {
    forall pid, child :: pid in seen && IsChild(children, pid, child) ==> child in seen || child in pending
  }

  lemma {:induction false} ClosedHoldsPath(children: Children, seen: set<int>, path: seq<int>)
    requires Closed(children, seen, []) && IsPath(children, path) && path[0] in seen
    ensures path[|path| - 1] in seen
    decreases |path|
  {
    if |path| > 1 {
      assert IsChild(children, path[0], path[1]);
      forall i | 0 <= i < |path[1..]| - 1
        ensures IsChild(children, path[1..][i], path[1..][i + 1])
      {
        assert path[1..][i] == path[i + 1];
      }
      ClosedHoldsPath(children, seen, path[1..]);
    }
  }

  // ----- Sorting the result -----

  predicate Minimum(s: set<int>, m: int) { m in s && forall x :: x in s ==> m <= x }

  lemma EmptyOrNot(s: set<int>)
    ensures s == {} || exists x :: x in s
  {
    if forall x :: x !in s {
      assert s == {};
    }
  }

  lemma {:induction false} HasMinimum(s: set<int>)
    requires s != {}
    ensures exists m :: Minimum(s, m)
    decreases |s|
  {
    EmptyOrNot(s);
    var a :| a in s;
    var rest := s - {a};
    assert forall x :: x in s <==> x == a || x in rest;
    if rest == {} {
      assert Minimum(s, a);
    } else {
      HasMinimum(rest);
      var m :| Minimum(rest, m);
      assert Minimum(s, if a < m then a else m);
    }
  }

  function Sorted(s: set<int>): (r: seq<int>)
    ensures Increasing(r) && forall x :: x in r <==> x in s
    decreases |s|
  {
    if s == {} then []
    else
      HasMinimum(s);
      var m :| Minimum(s, m);
      [m] + Sorted(s - {m})
  }

  lemma HeadIsMember(s: seq<int>)
    ensures s != [] ==> s[0] in s
  {
  }

  lemma {:induction false} IncreasingIsUnique(a: seq<int>, b: seq<int>)
    requires Increasing(a) && Increasing(b) && forall x :: x in a <==> x in b
    ensures a == b
    decreases |a|
  {
    if a == [] {
      HeadIsMember(b);
    } else {
      assert a[0] in a && a[0] in b && b[0] in b && b[0] in a;
      var i :| 0 <= i < |b| && b[i] == a[0];
      var j :| 0 <= j < |a| && a[j] == b[0];
      assert a[0] == b[0];
      forall x
        ensures x in a[1..] <==> x in b[1..]
      {
        TailMembers(a, x);
        TailMembers(b, x);
      }
      IncreasingIsUnique(a[1..], b[1..]);
      assert a == [a[0]] + a[1..] && b == [b[0]] + b[1..];
    }
  }

  lemma TailMembers(s: seq<int>, x: int)
    requires Increasing(s) && s != []
    ensures x in s[1..] <==> x in s && x != s[0]
  {
    if x in s && x != s[0] {
      var i :| 0 <= i < |s| && s[i] == x;
      assert s[1..][i - 1] == x;
    }
    if x in s[1..] {
      var i :| 0 <= i < |s[1..]| && s[1..][i] == x;
      assert s[i + 1] == x;
    }
  }

  // ----- The walk -----

  /** All pids there are: the walk sees no others, so it ends. */
  function Universe(children: Children, root: int): set<int> {
    {root} + set pid, child | pid in children && child in children[pid] && child.Pid? :: child.pid
  }

  predicate Within(pending: seq<int>, universe: set<int>) {
    forall i :: 0 <= i < |pending| ==> pending[i] in universe
  }

  ghost predicate AllReachable(children: Children, root: int, seen: set<int>, pending: seq<int>) {
    && (forall pid :: pid in seen ==> Reachable(children, root, pid))
    && (forall i :: 0 <= i < |pending| ==> Reachable(children, root, pending[i]))
  }

  /** The numbers among some tokens, in order. */
  function Pids(tokens: seq<Token>): seq<int> {
    if tokens == [] then []
    else Pids(tokens[..|tokens| - 1]) + (if tokens[|tokens| - 1].Pid? then [tokens[|tokens| - 1].pid] else [])
  }

  lemma {:induction false} PidsAreTokens(tokens: seq<Token>, pid: int)
    ensures pid in Pids(tokens) <==> Pid(pid) in tokens
  {
    if tokens != [] {
      var most := tokens[..|tokens| - 1];
      PidsAreTokens(most, pid);
      assert tokens == most + [tokens[|tokens| - 1]];
    }
  }

  /** One pid has been taken from the worklist for the first time. */
  lemma VisitKeeps(children: Children, root: int, seen: set<int>, rest: seq<int>, pid: int, tokens: seq<Token>)
    requires Closed(children, seen, rest + [pid]) && AllReachable(children, root, seen, rest + [pid])
    requires Within(rest + [pid], Universe(children, root))
    requires tokens == if pid in children then children[pid] else []
    ensures Closed(children, seen + {pid}, rest + Pids(tokens))
    ensures AllReachable(children, root, seen + {pid}, rest + Pids(tokens))
    ensures Within(rest + Pids(tokens), Universe(children, root))
  {
    var before, after := rest + [pid], rest + Pids(tokens);
    assert before[|rest|] == pid;
    forall p, child | p in seen + {pid} && IsChild(children, p, child)
      ensures child in seen + {pid} || child in after
    {
      PidsAreTokens(tokens, child);
      assert p in seen ==> child in seen || child in before;
    }
    forall i | 0 <= i < |after|
      ensures Reachable(children, root, after[i]) && after[i] in Universe(children, root)
    {
      if i < |rest| {
        assert after[i] == before[i];
      } else {
        var child := Pids(tokens)[i - |rest|];
        PidsAreTokens(tokens, child);
        ReachesChild(children, root, pid, child);
      }
    }
  }

  lemma SkipKeeps(children: Children, root: int, seen: set<int>, rest: seq<int>, pid: int)
    requires Closed(children, seen, rest + [pid]) && AllReachable(children, root, seen, rest + [pid])
    requires Within(rest + [pid], Universe(children, root)) && pid in seen
    ensures Closed(children, seen, rest) && AllReachable(children, root, seen, rest)
    ensures Within(rest, Universe(children, root))
  {
    var before := rest + [pid];
    assert forall i :: 0 <= i < |rest| ==> before[i] == rest[i];
    forall p, child | p in seen && IsChild(children, p, child)
      ensures child in seen || child in rest
    {
      assert child in seen || child in before;
    }
  }

  lemma SeenGrows(universe: set<int>, seen: set<int>, pid: int)
    requires pid in universe && pid !in seen
    ensures |universe - (seen + {pid})| < |universe - seen|
  {
    assert universe - seen == universe - (seen + {pid}) + {pid};
  }

  /** The pids reachable from the root, each once, in order: on any child graph, with cycles, shared
      children, words that are no numbers, and pids whose children cannot be read. */
  method Walk(root: int, children: Children) returns (pids: seq<int>)
    ensures Increasing(pids)
    ensures forall pid :: pid in pids <==> Reachable(children, root, pid)
  {
    hide Reachable, IsPath, IsChild, Closed, AllReachable, Within, Pids, Universe;
    WalkBegins(children, root);
    var pending := [root];
    var seen: set<int> := {};
    while pending != []
      invariant Closed(children, seen, pending) && AllReachable(children, root, seen, pending)
      invariant Within(pending, Universe(children, root))
      invariant root in seen || root in pending
      decreases |Universe(children, root) - seen|, |pending|
    {
      var rest, pid := pending[..|pending| - 1], pending[|pending| - 1];
      assert pending == rest + [pid];
      pending := rest;
      if pid in seen {
        SkipKeeps(children, root, seen, rest, pid);
        continue;
      }
      LastIsWithin(rest, pid, Universe(children, root));
      SeenGrows(Universe(children, root), seen, pid);
      ghost var before := seen;
      seen := seen + {pid};
      var tokens := if pid in children then children[pid] else [];
      NoPids();
      for i := 0 to |tokens|
        invariant pending == rest + Pids(tokens[..i])
      {
        PidsOfNext(tokens, i);
        if tokens[i].Pid? {
          pending := pending + [tokens[i].pid];
        }
      }
      assert tokens[..|tokens|] == tokens;
      VisitKeeps(children, root, before, rest, pid, tokens);
    }
    WalkEnds(children, root, seen);
    pids := Sorted(seen);
  }

  lemma WalkBegins(children: Children, root: int)
    ensures Closed(children, {}, [root]) && AllReachable(children, root, {}, [root])
    ensures Within([root], Universe(children, root))
  {
    ReachesItself(children, root);
  }

  lemma LastIsWithin(rest: seq<int>, pid: int, universe: set<int>)
    requires Within(rest + [pid], universe)
    ensures pid in universe
  {
    assert (rest + [pid])[|rest|] == pid;
  }

  lemma NoPids()
    ensures Pids([]) == []
  {
  }

  lemma PidsOfNext(tokens: seq<Token>, i: nat)
    requires i < |tokens|
    ensures Pids(tokens[..i + 1]) == Pids(tokens[..i]) + (if tokens[i].Pid? then [tokens[i].pid] else [])
  {
    assert tokens[..i + 1][..i] == tokens[..i];
  }

  lemma WalkEnds(children: Children, root: int, seen: set<int>)
    requires Closed(children, seen, []) && AllReachable(children, root, seen, []) && root in seen
    ensures forall pid :: pid in seen <==> Reachable(children, root, pid)
  {
    forall pid | Reachable(children, root, pid)
      ensures pid in seen
    {
      var path :| Leads(children, path, root, pid);
      ClosedHoldsPath(children, seen, path);
    }
  }
}
