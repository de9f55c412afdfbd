/** A directory tree as a map from paths to nodes, and the file system calls the trash uses. A rename
    carries a whole subtree from one prefix to another. */
module FileTree {
  import opened Options

  type Path = seq<string>

  datatype Manifest = Manifest(original: Path, restored: bool, expiresAt: int)

  datatype Batch = Batch(ids: seq<string>, undone: bool)

  datatype Data = Text(text: string) | ManifestDoc(manifest: Manifest) | BatchDoc(batch: Batch)

  datatype Node = Dir | File(data: Data)

  type Tree = map<Path, Node>

  function Parent(p: Path): Path
    requires p != []
  {
    p[..|p| - 1]
  }

  predicate IsDir(t: Tree, p: Path) { p in t && t[p].Dir? }

  /** The root is a directory, and so is the parent of every other node. */
  ghost predicate WellFormed(t: Tree) {
    && IsDir(t, [])
    && forall p :: p in t && p != [] ==> IsDir(t, Parent(p))
  }

  lemma {:induction false} AncestorsExist(t: Tree, p: Path, q: Path)
    requires WellFormed(t) && q in t && p <= q
    ensures p in t && (p != q ==> IsDir(t, p))
    decreases |q|
  {
    if p != q {
      AncestorsExist(t, p, Parent(q));
    }
  }

  lemma AboveParent(p: Path, q: Path)
    requires q != []
    ensures p <= Parent(q) ==> p <= q
  {
  }

  // ----- Subtrees -----

  /** The path of `p` after everything under `from` has gone to `to`. */
  function Rebased(p: Path, from: Path, to: Path): Path
    requires from <= p
  {
    to + p[|from|..]
  }

  lemma RebasedBack(p: Path, from: Path, to: Path)
    requires from <= p
    ensures to <= Rebased(p, from, to) && Rebased(Rebased(p, from, to), to, from) == p
  {
    assert Rebased(p, from, to)[|to|..] == p[|from|..];
  }

  /** Everything at and under `p`, with paths relative to `p`. */
  function Subtree(t: Tree, p: Path): Tree {
    map q | q in (set r | r in t && p <= r :: r[|p|..]) && p + q in t :: t[p + q]
  }

  lemma InSubtree(t: Tree, p: Path, q: Path)
    ensures q in Subtree(t, p) <==> p + q in t
    ensures p + q in t ==> Subtree(t, p)[q] == t[p + q]
  {
    if p + q in t {
      assert p <= p + q && (p + q)[|p|..] == q;
    }
  }

  lemma SubtreesEqual(t: Tree, p: Path, t': Tree, p': Path)
    requires forall q :: p + q in t <==> p' + q in t'
    requires forall q :: p + q in t ==> t[p + q] == t'[p' + q]
    ensures Subtree(t, p) == Subtree(t', p')
  {
    forall q
      ensures q in Subtree(t, p) <==> q in Subtree(t', p')
      ensures q in Subtree(t, p) ==> Subtree(t, p)[q] == Subtree(t', p')[q]
    {
      InSubtree(t, p, q);
      InSubtree(t', p', q);
    }
  }

  ghost predicate SameAt(t: Tree, t': Tree, p: Path) {
    (p in t <==> p in t') && (p in t ==> t[p] == t'[p])
  }

  /** Two trees hold the same at and under `p`. */
  ghost predicate SameUnder(t: Tree, t': Tree, p: Path) {
    forall q :: p <= q ==> SameAt(t, t', q)
  }

  lemma SameUnderSubtree(t: Tree, t': Tree, p: Path)
    requires SameUnder(t, t', p)
    ensures Subtree(t, p) == Subtree(t', p)
  {
    forall q
      ensures p + q in t <==> p + q in t'
      ensures p + q in t ==> t[p + q] == t'[p + q]
    {
      assert p <= p + q;
      assert SameAt(t, t', p + q);
    }
    SubtreesEqual(t, p, t', p);
  }

  // ----- System calls -----

  /** `os.rename` onto a free name in an existing directory; None when the call fails. The callers
      never rename onto something that exists, so replacing a target is not part of this model. */
  function Rename(t: Tree, from: Path, to: Path): Option<Tree> {
    if from != [] && to != [] && from in t && to !in t && IsDir(t, Parent(to)) && !(from <= to) then
      Some(Moved(t, from, to))
    else None
  }

  function Moved(t: Tree, from: Path, to: Path): Tree {
    map p | p in MovedPaths(t, from, to) && OriginOf(p, from, to) in t :: t[OriginOf(p, from, to)]
  }

  function MovedPaths(t: Tree, from: Path, to: Path): set<Path> {
    (set p | p in t && !(from <= p)) + (set p | p in t && from <= p :: Rebased(p, from, to))
  }

  /** Where the node now at `p` was before the rename. */
  function OriginOf(p: Path, from: Path, to: Path): Path {
    if to <= p then Rebased(p, to, from) else p
  }

  /** `mkdir` with its missing parents; `leafMayExist` is `exist_ok`. */
  function MakeDirs(t: Tree, p: Path, leafMayExist: bool): Option<Tree>
    decreases |p|
  {
    if p in t then (if t[p].Dir? && leafMayExist then Some(t) else None)
    else if p == [] then None
    else match MakeDirs(t, Parent(p), true)
      case None => None
      case Some(made) => Some(made[p := Dir])
  }

  /** `_atomic_json_write`: all of the document or nothing. */
  function WriteDoc(t: Tree, p: Path, data: Data): Option<Tree> {
    if p != [] && IsDir(t, Parent(p)) && !IsDir(t, p) then Some(t[p := File(data)]) else None
  }

  /** `shutil.rmtree` with errors ignored. */
  function RemoveTree(t: Tree, p: Path): Tree {
    map q | q in t && !(p <= q) :: t[q]
  }

  // ----- What a rename does -----

  /** Nothing is at or under `p`. */
  ghost predicate Absent(t: Tree, p: Path) { forall q :: p <= q ==> q !in t }

  lemma AbsentUnderMissing(t: Tree, p: Path)
    requires WellFormed(t) && p !in t
    ensures Absent(t, p)
  {
    forall q | p <= q
      ensures q !in t
    {
      if q in t {
        AncestorsExist(t, p, q);
      }
    }
  }

  /** Neither path lies at or under the other. */
  predicate Apart(p: Path, q: Path) { !(p <= q) && !(q <= p) }

  /** The whole new tree: what was under `from` is under `to`, and nothing else has changed. */
  lemma MovedAt(t: Tree, from: Path, to: Path, p: Path)
    requires Absent(t, to) && Apart(from, to)
    ensures var t' := Moved(t, from, to);
      && (to <= p ==> (p in t' <==> Rebased(p, to, from) in t) && (p in t' ==> t'[p] == t[Rebased(p, to, from)]))
      && (from <= p ==> p !in t')
      && (!(to <= p) && !(from <= p) ==> (p in t' <==> p in t) && (p in t' ==> t'[p] == t[p]))
  {
    if to <= p {
      RebasedBack(p, to, from);
      var origin := Rebased(p, to, from);
      assert origin in t ==> Rebased(origin, from, to) in MovedPaths(t, from, to);
      if p in MovedPaths(t, from, to) {
        assert p !in t;
      }
    } else if from <= p {
      assert forall r | r in t && from <= r :: to <= Rebased(r, from, to);
    } else if p in t {
      assert p in MovedPaths(t, from, to);
    }
  }

  lemma MovedSubtree(t: Tree, from: Path, to: Path)
    requires Absent(t, to) && Apart(from, to)
    ensures Subtree(Moved(t, from, to), to) == Subtree(t, from)
    ensures Absent(Moved(t, from, to), from)
  {
    var t' := Moved(t, from, to);
    forall q
      ensures to + q in t' <==> from + q in t
      ensures to + q in t' ==> t'[to + q] == t[from + q]
    {
      MovedAt(t, from, to, to + q);
      assert Rebased(to + q, to, from) == from + q;
    }
    SubtreesEqual(t', to, t, from);
    forall q | from <= q
      ensures q !in t'
    {
      MovedAt(t, from, to, q);
    }
  }

  lemma PrefixesComparable(p: Path, q: Path, r: Path)
    requires p <= r && q <= r
    ensures p <= q || q <= p
  {
    if |p| <= |q| {
      assert p == r[..|p|] == q[..|p|];
    } else {
      assert q == r[..|q|] == p[..|q|];
    }
  }

  /** Renaming there and back leaves the tree as it was. */
  lemma MovedBack(t: Tree, from: Path, to: Path)
    requires Absent(t, to) && Apart(from, to)
    ensures Moved(Moved(t, from, to), to, from) == t
  {
    var there := Moved(t, from, to);
    MovedSubtree(t, from, to);
    var back := Moved(there, to, from);
    forall p
      ensures (p in back <==> p in t) && (p in t ==> back[p] == t[p])
    {
      MovedAt(there, to, from, p);
      if from <= p {
        var q := Rebased(p, from, to);
        RebasedBack(p, from, to);
        MovedAt(t, from, to, q);
      } else if to <= p {
        assert p !in t && p !in back;
      } else {
        MovedAt(t, from, to, p);
      }
    }
    SameTree(back, t);
  }

  lemma SameTree(a: Tree, b: Tree)
    requires forall p :: (p in a <==> p in b) && (p in b ==> a[p] == b[p])
    ensures a == b
  {
    assert a.Keys == b.Keys;
  }

  lemma MovedWellFormed(t: Tree, from: Path, to: Path)
    requires WellFormed(t) && Absent(t, to) && Apart(from, to) && IsDir(t, Parent(to))
    requires from != [] && to != []
    ensures WellFormed(Moved(t, from, to))
  {
    hide Moved;
    var t' := Moved(t, from, to);
    MovedAt(t, from, to, []);
    forall p | p in t' && p != []
      ensures IsDir(t', Parent(p))
    {
      MovedAt(t, from, to, p);
      MovedAt(t, from, to, Parent(p));
      if to == p {
        ParentApart(t, from, to);
      } else if to <= p {
        assert to <= Parent(p);
        assert Rebased(Parent(p), to, from) == Parent(Rebased(p, to, from));
      } else {
        AboveParent(from, p);
        AboveParent(to, p);
      }
    }
  }

  /** The directory a subtree goes to is not inside it, and is not the new name itself. */
  lemma ParentApart(t: Tree, from: Path, to: Path)
    requires to != [] && Apart(from, to)
    ensures !(from <= Parent(to)) && !(to <= Parent(to))
  {
    AboveParent(from, to);
  }

  ghost predicate CanRename(t: Tree, from: Path, to: Path) {
    && WellFormed(t) && from != [] && to != []
    && from in t && to !in t && IsDir(t, Parent(to)) && Apart(from, to)
  }

  /** A rename within its rights: what it does, and that renaming back undoes it. */
  lemma RenameWorks(t: Tree, from: Path, to: Path)
    requires CanRename(t, from, to)
    ensures var t' := Moved(t, from, to);
      && Rename(t, from, to) == Some(t') && WellFormed(t')
      && Absent(t, to) && Absent(t', from)
      && to in t' && t'[to] == t[from] && Subtree(t', to) == Subtree(t, from)
      && (forall p :: !(from <= p) && !(to <= p) ==> SameAt(t, t', p))
      && Rename(t', to, from) == Some(t)
  {
    hide Moved, Subtree;
    AbsentUnderMissing(t, to);
    MovedWellFormed(t, from, to);
    MovedSubtree(t, from, to);
    RenameMovesRoot(t, from, to);
    MovedElsewhere(t, from, to);
    MovedBack(t, from, to);
    RenameBack(t, from, to);
  }

  lemma MovedElsewhere(t: Tree, from: Path, to: Path)
    requires Absent(t, to) && Apart(from, to)
    ensures forall p :: !(from <= p) && !(to <= p) ==> SameAt(t, Moved(t, from, to), p)
  {
    forall p | !(from <= p) && !(to <= p)
      ensures SameAt(t, Moved(t, from, to), p)
    {
      MovedAt(t, from, to, p);
    }
  }

  lemma RenameMovesRoot(t: Tree, from: Path, to: Path)
    requires CanRename(t, from, to) && Absent(t, to)
    ensures var t' := Moved(t, from, to); to in t' && t'[to] == t[from]
  {
    MovedAt(t, from, to, to);
    assert Rebased(to, to, from) == from;
  }

  lemma RenameBack(t: Tree, from: Path, to: Path)
    requires CanRename(t, from, to) && Absent(t, to)
    requires var t' := Moved(t, from, to);
      to in t' && Absent(t', from) && Moved(t', to, from) == t
    ensures Rename(Moved(t, from, to), to, from) == Some(t)
  {
    hide Moved;
    var t' := Moved(t, from, to);
    AncestorsExist(t, Parent(from), from);
    AboveParent(to, from);
    MovedElsewhere(t, from, to);
    assert SameAt(t, t', Parent(from));
    assert from <= from;
  }

  // ----- What the other calls do -----

  lemma {:induction false} MakeDirsAdds(t: Tree, p: Path, leafMayExist: bool)
    requires WellFormed(t) && MakeDirs(t, p, leafMayExist).Some?
    ensures var made := MakeDirs(t, p, leafMayExist).value;
      && WellFormed(made) && IsDir(made, p)
      && (forall q :: q in t ==> q in made && made[q] == t[q])
      && (forall q :: q in made && q !in t ==> q <= p && made[q] == Dir)
      && (!leafMayExist ==> p !in t)
    decreases |p|
  {
    if p !in t {
      MakeDirsAdds(t, Parent(p), true);
      var above := MakeDirs(t, Parent(p), true).value;
      var made := above[p := Dir];
      assert Parent(p) <= p;
      forall q | q in made && q !in t
        ensures q <= p && made[q] == Dir
      {
        if q != p {
          assert q <= Parent(p);
        }
      }
      forall q | q in made && q != []
        ensures IsDir(made, Parent(q))
      {
        if q != p {
          assert IsDir(above, Parent(q));
        }
      }
    }
  }

  lemma WriteWorks(t: Tree, p: Path, data: Data)
    requires WellFormed(t) && p != [] && IsDir(t, Parent(p)) && !IsDir(t, p)
    ensures var t' := t[p := File(data)];
      && WriteDoc(t, p, data) == Some(t') && WellFormed(t')
      && (forall q :: q != p ==> SameAt(t, t', q))
  {
  }

  lemma RemoveKeepsWellFormed(t: Tree, p: Path)
    requires WellFormed(t) && p != []
    ensures WellFormed(RemoveTree(t, p))
  {
    forall q | q in RemoveTree(t, p) && q != []
      ensures IsDir(RemoveTree(t, p), Parent(q))
    {
      AboveParent(p, q);
    }
  }
}
