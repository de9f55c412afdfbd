/** Prune and undo: many renames that are all or nothing under failures, and inverse to each other. */
module TrashBatch {
  import opened Options
  import opened FileTree
  import opened Trash
  import opened TrashSingle

  // ----- Moving a set of entries between two directories -----

  /** `p` is one of the named children of `dir`, or lies under one. */
  predicate InSet(p: Path, dir: Path, ids: seq<string>) {
    dir <= p && |p| > |dir| && p[|dir|] in ids
  }

  /** Neither directory is at or under one of the entries that move. */
  ghost predicate DirsOutside(from: Path, to: Path, ids: seq<string>) {
    from != to && forall i :: 0 <= i < |ids| ==> !(from + [ids[i]] <= to) && !(to + [ids[i]] <= from)
  }

  lemma InSetChild(p: Path, dir: Path, ids: seq<string>)
    requires InSet(p, dir, ids)
    ensures dir + [p[|dir|]] <= p
  {
    assert p[..|dir| + 1] == dir + [p[|dir|]];
  }

  lemma ChildrenApart(from: Path, to: Path, id: string, id': string)
    requires DirsOutside(from, to, [id, id'])
    ensures Apart(from + [id], to + [id'])
  {
    assert [id, id'][0] == id && [id, id'][1] == id';
    ChildUnderChild(from, id, to, id');
    ChildUnderChild(to, id', from, id);
  }

  lemma ChildUnderChild(a: Path, x: string, b: Path, y: string)
    ensures a + [x] <= b + [y] ==> a + [x] <= b || a == b
  {
    if a + [x] <= b + [y] && |a| == |b| {
      assert a == (a + [x])[..|a|] == (b + [y])[..|b|] == b;
    }
  }

  lemma SetsDisjoint(p: Path, from: Path, to: Path, ids: seq<string>)
    requires DirsOutside(from, to, ids)
    ensures !(InSet(p, from, ids) && InSet(p, to, ids))
  {
    if InSet(p, from, ids) && InSet(p, to, ids) {
      var a, b := p[|from|], p[|to|];
      var i :| 0 <= i < |ids| && ids[i] == a;
      var j :| 0 <= j < |ids| && ids[j] == b;
      InSetChild(p, from, ids);
      InSetChild(p, to, ids);
      PrefixesComparable(from + [a], to + [b], p);
      ChildrenApart(from, to, a, b);
    }
  }

  /** What the move of `ids` from one directory to the other has made of path `p`. */
  ghost predicate MovedSetAt(t: Tree, t': Tree, from: Path, to: Path, ids: seq<string>, p: Path) {
    if InSet(p, to, ids) then
      (p in t' <==> Rebased(p, to, from) in t) && (p in t' ==> t'[p] == t[Rebased(p, to, from)])
    else if InSet(p, from, ids) then p !in t'
    else SameAt(t, t', p)
  }

  ghost predicate MovedSet(t: Tree, t': Tree, from: Path, to: Path, ids: seq<string>) {
    forall p :: MovedSetAt(t, t', from, to, ids, p)
  }

  /** Everything is in place to move `ids[i..]`. */
  ghost predicate Ready(t: Tree, from: Path, to: Path, ids: seq<string>, i: nat) {
    && WellFormed(t) && IsDir(t, from) && IsDir(t, to)
    && Distinct(ids) && DirsOutside(from, to, ids)
    && forall k :: i <= k < |ids| ==> from + [ids[k]] in t && to + [ids[k]] !in t
  }

  lemma DistinctChildren(dir: Path, a: string, b: string)
    requires a != b
    ensures !(dir + [a] <= dir + [b])
  {
    assert (dir + [a])[|dir|] == a && (dir + [b])[|dir|] == b;
  }

  lemma ChildParent(dir: Path, id: string)
    ensures dir + [id] != [] && Parent(dir + [id]) == dir && !(dir + [id] <= dir)
  {
  }

  lemma OneMove(t: Tree, from: Path, to: Path, ids: seq<string>, i: nat)
    requires i < |ids| && Ready(t, from, to, ids, i)
    ensures var t' := Moved(t, from + [ids[i]], to + [ids[i]]);
      && Rename(t, from + [ids[i]], to + [ids[i]]) == Some(t')
      && Rename(t', to + [ids[i]], from + [ids[i]]) == Some(t)
      && to + [ids[i]] in t' && from + [ids[i]] !in t'
      && Ready(t', from, to, ids, i + 1)
      && MovedSet(t, t', from, to, [ids[i]])
  {
    hide Moved, WellFormed, Subtree, Rename, MovedSetAt;
    var id := ids[i];
    var a, b := from + [id], to + [id];
    assert DirsOutside(from, to, [id, id]);
    ChildrenApart(from, to, id, id);
    ChildParent(to, id);
    ChildParent(from, id);
    RenameWorks(t, a, b);
    var t' := Moved(t, a, b);
    assert a <= a;
    assert SameAt(t, t', from) && SameAt(t, t', to);
    forall k | i + 1 <= k < |ids|
      ensures from + [ids[k]] in t' && to + [ids[k]] !in t'
    {
      DistinctChildren(from, id, ids[k]);
      DistinctChildren(to, id, ids[k]);
      assert DirsOutside(from, to, [id, ids[k]]) && DirsOutside(from, to, [ids[k], id]);
      ChildrenApart(from, to, id, ids[k]);
      ChildrenApart(from, to, ids[k], id);
      assert SameAt(t, t', from + [ids[k]]) && SameAt(t, t', to + [ids[k]]);
    }
    MoveIsMovedSet(t, from, to, id);
  }

  lemma MoveIsMovedSet(t: Tree, from: Path, to: Path, id: string)
    requires Absent(t, to + [id]) && Apart(from + [id], to + [id])
    ensures MovedSet(t, Moved(t, from + [id], to + [id]), from, to, [id])
  {
    hide Moved;
    forall p
      ensures MovedSetAt(t, Moved(t, from + [id], to + [id]), from, to, [id], p)
    {
      MovedAt(t, from + [id], to + [id], p);
      if InSet(p, to, [id]) {
        InSetChild(p, to, [id]);
        assert Rebased(p, to + [id], from + [id]) == Rebased(p, to, from);
      } else {
        assert !(to + [id] <= p);
        if InSet(p, from, [id]) {
          InSetChild(p, from, [id]);
        } else {
          assert !(from + [id] <= p);
        }
      }
    }
  }

  lemma MovedSetsCompose(t: Tree, t1: Tree, t2: Tree, from: Path, to: Path, ids: seq<string>, i: nat)
    requires i < |ids| && DirsOutside(from, to, ids)
    requires MovedSet(t, t1, from, to, [ids[i]]) && MovedSet(t1, t2, from, to, ids[i + 1..])
    requires Distinct(ids)
    ensures MovedSet(t, t2, from, to, ids[i..])
  {
    forall p
      ensures MovedSetAt(t, t2, from, to, ids[i..], p)
    {
      assert ids[i..] == [ids[i]] + ids[i + 1..];
      assert MovedSetAt(t, t1, from, to, [ids[i]], p) && MovedSetAt(t1, t2, from, to, ids[i + 1..], p);
      SetsDisjoint(p, from, to, ids);
      if InSet(p, to, ids[i + 1..]) {
        OriginInSet(p, from, to, ids[i + 1..]);
        var q := Rebased(p, to, from);
        SetsDisjoint(q, from, to, ids);
        assert MovedSetAt(t, t1, from, to, [ids[i]], q);
      }
    }
  }

  lemma OriginInSet(p: Path, from: Path, to: Path, ids: seq<string>)
    requires InSet(p, to, ids)
    ensures InSet(Rebased(p, to, from), from, ids) && Rebased(Rebased(p, to, from), from, to) == p
    ensures Rebased(p, to, from)[|from|] == p[|to|]
  {
    RebasedBack(p, to, from);
  }

  /** The loop of renames: it stops exactly where a rename is made to fail, moving back from there
      takes the tree to where it was, and when it gets through all entries have moved. */
  lemma {:induction false} MoveAllWorks(t: Tree, from: Path, to: Path, ids: seq<string>, i: nat, fail: nat)
    requires i <= |ids| && Ready(t, from, to, ids, i)
    ensures var p := MoveAll(t, from, to, ids, i, fail);
      && Ready(p.tree, from, to, ids, p.moved)
      && (p.ok <==> !(i < fail <= |ids|)) && (!p.ok ==> p.moved == fail - 1)
      && MoveBack(p.tree, from, to, ids, p.moved, {}) == MoveBack(t, from, to, ids, i, {})
      && MovedSet(t, p.tree, from, to, ids[i..p.moved])
    decreases |ids| - i
  {
    hide Moved, WellFormed, Subtree, Rename, MovedSetAt, Ready, DirsOutside;
    if i == |ids| || fail == i + 1 {
      NothingMoved(t, from, to);
      assert ids[i..i] == [];
    } else {
      OneMove(t, from, to, ids, i);
      var t' := Moved(t, from + [ids[i]], to + [ids[i]]);
      MoveAllWorks(t', from, to, ids, i + 1, fail);
      var p := MoveAll(t', from, to, ids, i + 1, fail);
      MovedPrefix(t, t', p.tree, from, to, ids, i, p.moved);
    }
  }

  lemma NothingMoved(t: Tree, from: Path, to: Path)
    ensures MovedSet(t, t, from, to, [])
  {
  }

  lemma MovedPrefix(t: Tree, t1: Tree, t2: Tree, from: Path, to: Path, ids: seq<string>, i: nat, n: nat)
    requires i < n <= |ids| && Ready(t, from, to, ids, i)
    requires MovedSet(t, t1, from, to, [ids[i]]) && MovedSet(t1, t2, from, to, ids[i + 1..n])
    ensures MovedSet(t, t2, from, to, ids[i..n])
  {
    hide MovedSet, WellFormed;
    var head := ids[..n];
    assert head[i] == ids[i] && head[i + 1..] == ids[i + 1..n] && head[i..] == ids[i..n];
    assert DirsOutside(from, to, head) by {
      forall k | 0 <= k < |head|
        ensures !(from + [head[k]] <= to) && !(to + [head[k]] <= from)
      {
        assert head[k] == ids[k];
      }
    }
    MovedSetsCompose(t, t1, t2, from, to, head, i);
  }

  // ----- Prune -----

  lemma PrunePaths(batch: string)
    ensures Parent(Quarantine(batch)) == Root() + [PRUNE] && Parent(Root() + [PRUNE]) == Root() && Parent(Root()) == []
    ensures Parent(BatchOf(batch)) == Quarantine(batch) && Quarantine(batch) <= BatchOf(batch)
    ensures Root() != [] && Root() <= Quarantine(batch) && !(Quarantine(batch) <= Root() + [PRUNE])
    ensures !(BatchOf(batch) <= Quarantine(batch)) && !(Quarantine(batch) <= Root()) && Root() != Quarantine(batch)
    ensures Root() + [PRUNE] <= Quarantine(batch) && BatchOf(batch) == Quarantine(batch) + ["batch.json"]
  {
  }

  predicate PruneUsable(t: Tree) {
    (Root() in t ==> t[Root()].Dir?) && (Root() + [PRUNE] in t ==> t[Root() + [PRUNE]].Dir?)
  }

  /** Nothing has changed but, perhaps, that the trash and prune directories exist now. */
  ghost predicate EntriesUnchanged(t: Tree, t': Tree) {
    forall p :: p != Root() && p != Root() + [PRUNE] ==> SameAt(t, t', p)
  }

  ghost predicate QuarantineIsMade(t: Tree, made: Tree, batch: string) {
    && WellFormed(made) && IsDir(made, Quarantine(batch)) && IsDir(made, Root())
    && (forall p :: p != Root() && p != Root() + [PRUNE] && p != Quarantine(batch) ==> SameAt(t, made, p))
    && (forall p :: Quarantine(batch) <= p && p != Quarantine(batch) ==> p !in made)
  }

  lemma QuarantineMade(t: Tree, batch: string)
    requires WellFormed(t) && Quarantine(batch) !in t
    ensures MakeDirs(t, Quarantine(batch), false).Some? <==> PruneUsable(t)
    ensures PruneUsable(t) ==> QuarantineIsMade(t, MakeDirs(t, Quarantine(batch), false).value, batch)
  {
    hide Root, Quarantine, BatchOf;
    PrunePaths(batch);
    var root, prune := Root(), Root() + [PRUNE];
    AbsentUnderMissing(t, Quarantine(batch));
    assert MakeDirs(t, [], true) == Some(t);
    if root !in t {
      AbsentUnderMissing(t, root);
      assert root <= prune;
      assert MakeDirs(t, root, true) == Some(t[root := Dir]);
    }
    if PruneUsable(t) {
      var above := if root in t then t else t[root := Dir];
      assert MakeDirs(t, root, true) == Some(above);
      var above2 := if prune in t then t else above[prune := Dir];
      assert MakeDirs(t, prune, true) == Some(above2);
      assert MakeDirs(t, Quarantine(batch), false) == Some(above2[Quarantine(batch) := Dir]);
      MakeDirsAdds(t, Quarantine(batch), false);
      AncestorsExist(above2[Quarantine(batch) := Dir], root, Quarantine(batch));
    } else {
      assert root in t && !t[root].Dir? ==> prune !in t;
      assert MakeDirs(t, prune, true) == None;
    }
  }

  lemma QuarantineRemoved(t: Tree, s: Tree, batch: string)
    requires WellFormed(t) && WellFormed(s) && Quarantine(batch) !in t
    requires forall p :: !(Quarantine(batch) <= p) && p != Root() && p != Root() + [PRUNE] ==> SameAt(t, s, p)
    ensures EntriesUnchanged(t, RemoveTree(s, Quarantine(batch))) && WellFormed(RemoveTree(s, Quarantine(batch)))
  {
    hide Root, Quarantine;
    PrunePaths(batch);
    AbsentUnderMissing(t, Quarantine(batch));
    RemoveKeepsWellFormed(s, Quarantine(batch));
    forall p | p != Root() && p != Root() + [PRUNE]
      ensures SameAt(t, RemoveTree(s, Quarantine(batch)), p)
    {
      if !(Quarantine(batch) <= p) {
        assert SameAt(t, s, p);
      }
    }
  }

  lemma ExpiredHasManifest(t: Tree, cutoff: int, id: string)
    requires id in Expired(t, cutoff)
    ensures id != PRUNE && ManifestOf(id) in t
  {
  }

  lemma InPreview(t: Tree, ids: seq<string>, cutoff: int, k: nat)
    requires WellFormed(t) && CurrentPreview(t, ids, cutoff) && k < |ids|
    ensures ids[k] != PRUNE && ManifestOf(ids[k]) in t
    ensures Root() + [ids[k]] == EntryOf(ids[k]) && EntryOf(ids[k]) in t
  {
    hide Expired, ManifestOf, ContentOf, WellFormed;
    assert ids[k] in Expired(t, cutoff);
    ExpiredHasManifest(t, cutoff, ids[k]);
    EntryPaths(ids[k]);
    AncestorsExist(t, EntryOf(ids[k]), ManifestOf(ids[k]));
    assert Root() + [ids[k]] == EntryOf(ids[k]);
  }

  lemma ReadyToPrune(t: Tree, made: Tree, ids: seq<string>, cutoff: int, batch: string)
    requires WellFormed(t) && CurrentPreview(t, ids, cutoff) && QuarantineIsMade(t, made, batch)
    ensures Ready(made, Root(), Quarantine(batch), ids, 0)
  {
    hide Expired;
    PrunePaths(batch);
    forall k | 0 <= k < |ids|
      ensures Root() + [ids[k]] in made && Quarantine(batch) + [ids[k]] !in made
      ensures !(Root() + [ids[k]] <= Quarantine(batch)) && !(Quarantine(batch) + [ids[k]] <= Root())
    {
      InPreview(t, ids, cutoff, k);
      assert (Root() + [ids[k]])[1] == ids[k] && Quarantine(batch)[1] == PRUNE;
      assert SameAt(t, made, Root() + [ids[k]]);
      assert Quarantine(batch) <= Quarantine(batch) + [ids[k]];
    }
  }

  ghost predicate PruneDone(t: Tree, t': Tree, ids: seq<string>, batch: string) {
    && (forall p :: p !in {Root(), Root() + [PRUNE], Quarantine(batch), BatchOf(batch)} ==>
          MovedSetAt(t, t', Root(), Quarantine(batch), ids, p))
    && BatchOf(batch) in t' && t'[BatchOf(batch)] == File(BatchDoc(Batch(ids, false)))
    && IsDir(t', Quarantine(batch)) && IsDir(t', Root())
  }

  lemma PruneSucceeds(t: Tree, made: Tree, ids: seq<string>, cutoff: int, batch: string, fail: nat)
    requires WellFormed(t) && CurrentPreview(t, ids, cutoff)
    requires QuarantineIsMade(t, made, batch) && Quarantine(batch) !in t
    requires fail > |ids| + 1 && "batch.json" !in ids
    ensures var p := MoveAll(made, Root(), Quarantine(batch), ids, 0, fail);
      var written := WriteDoc(p.tree, BatchOf(batch), BatchDoc(Batch(ids, false)));
      p.ok && written.Some? && WellFormed(written.value) && PruneDone(t, written.value, ids, batch)
  {
    hide Root, Quarantine, BatchOf, WellFormed, CurrentPreview, Expired, MovedSetAt, MoveBack, MoveAll, RemoveTree;
    PrunePaths(batch);
    ReadyToPrune(t, made, ids, cutoff, batch);
    MoveAllWorks(made, Root(), Quarantine(batch), ids, 0, fail);
    var p := MoveAll(made, Root(), Quarantine(batch), ids, 0, fail);
    assert ids[0..|ids|] == ids;
    MovedSetSkips(made, p.tree, Root(), Quarantine(batch), ids, "batch.json");
    var data := BatchDoc(Batch(ids, false));
    WriteWorks(p.tree, BatchOf(batch), data);
    var written := WriteDoc(p.tree, BatchOf(batch), data).value;
    assert SameAt(p.tree, written, Quarantine(batch)) && SameAt(p.tree, written, Root());
    PrunedElsewhere(t, made, p.tree, written, ids, batch);
  }

  /** A name that is not among the moved ones stays free in the target directory. */
  lemma MovedSetSkips(t: Tree, t': Tree, from: Path, to: Path, ids: seq<string>, name: string)
    requires MovedSet(t, t', from, to, ids) && name !in ids && to + [name] !in t
    ensures to + [name] !in t'
  {
    assert MovedSetAt(t, t', from, to, ids, to + [name]);
  }

  lemma PrunedElsewhere(t: Tree, made: Tree, moved: Tree, written: Tree, ids: seq<string>, batch: string)
    requires QuarantineIsMade(t, made, batch) && Quarantine(batch) !in t && WellFormed(t)
    requires MovedSet(made, moved, Root(), Quarantine(batch), ids) && DirsOutside(Root(), Quarantine(batch), ids)
    requires forall p :: p != BatchOf(batch) ==> SameAt(moved, written, p)
    ensures forall p :: p !in {Root(), Root() + [PRUNE], Quarantine(batch), BatchOf(batch)} ==>
      MovedSetAt(t, written, Root(), Quarantine(batch), ids, p)
  {
    hide Root, Quarantine, BatchOf, WellFormed;
    PrunePaths(batch);
    forall p | p !in {Root(), Root() + [PRUNE], Quarantine(batch), BatchOf(batch)}
      ensures MovedSetAt(t, written, Root(), Quarantine(batch), ids, p)
    {
      assert MovedSetAt(made, moved, Root(), Quarantine(batch), ids, p);
      assert SameAt(moved, written, p) && SameAt(t, made, p);
      if InSet(p, Quarantine(batch), ids) {
        var q := Rebased(p, Quarantine(batch), Root());
        OriginInSet(p, Root(), Quarantine(batch), ids);
        InSetChild(q, Root(), ids);
        var k :| 0 <= k < |ids| && ids[k] == q[|Root()|];
        assert q != Root() && q != Quarantine(batch) by {
          assert Root() + [ids[k]] <= q;
        }
        assert Root() + [ids[k]] != Root() + [PRUNE];
        assert |q| == |Root()| + 1 ==> Root() + [ids[k]] == q;
        assert SameAt(t, made, q);
      }
    }
  }

  /** Whichever call of a prune fails, if the compensating renames work: either all listed entries
      have gone to the quarantine, or every entry and everything else is as before. */
  lemma PruneIsAllOrNothing(t: Tree, ids: seq<string>, cutoff: int, batch: string, fail: nat)
    requires WellFormed(t) && Quarantine(batch) !in t && "batch.json" !in ids
    ensures var out := Pruned(t, ids, cutoff, batch, fail, {});
      && WellFormed(out.tree)
      && (out.ok <==> CurrentPreview(t, ids, cutoff) && fail > |ids| + 1 && PruneUsable(t))
      && (if out.ok then PruneDone(t, out.tree, ids, batch) else EntriesUnchanged(t, out.tree))
  {
    hide Root, Quarantine, BatchOf, WellFormed, CurrentPreview, Expired, MovedSetAt, MoveBack, MoveAll, RemoveTree,
         MakeDirs, WriteDoc;
    QuarantineMade(t, batch);
    PrunePaths(batch);
    if CurrentPreview(t, ids, cutoff) {
      if fail == 0 || !PruneUsable(t) {
        QuarantineRemoved(t, t, batch);
      } else {
        var made := MakeDirs(t, Quarantine(batch), false).value;
        if fail > |ids| + 1 {
          PruneSucceeds(t, made, ids, cutoff, batch, fail);
        } else {
          ReadyToPrune(t, made, ids, cutoff, batch);
          MoveAllWorks(made, Root(), Quarantine(batch), ids, 0, fail);
          MoveBackNothing(made, Root(), Quarantine(batch), ids);
          assert Quarantine(batch) <= Quarantine(batch);
          QuarantineRemoved(t, made, batch);
        }
      }
    }
  }

  /** The entry has a manifest in the trash that is active and whose time is not after the cutoff. */
  predicate Due(t: Tree, id: string, cutoff: int) {
    var p := [".agent-pbx-trash", id, "manifest.json"];
    p in t && t[p].File? && t[p].data.ManifestDoc?
    && !t[p].data.manifest.restored && t[p].data.manifest.expiresAt <= cutoff
  }

  /** The list has every entry that is due, once, and no other. */
  ghost predicate ListsDue(t: Tree, ids: seq<string>, cutoff: int) {
    && (forall i, j :: 0 <= i < j < |ids| ==> ids[i] != ids[j])
    && forall id :: id in ids <==> id != ".prune" && Due(t, id, cutoff)
  }

  lemma PreviewListsDue(t: Tree, ids: seq<string>, cutoff: int)
    ensures CurrentPreview(t, ids, cutoff) <==> ListsDue(t, ids, cutoff)
  {
    var listed := set i | 0 <= i < |ids| :: ids[i];
    assert forall id :: id in listed <==> id in ids;
    forall id
      ensures id in Expired(t, cutoff) <==> id != ".prune" && Due(t, id, cutoff)
    {
      DueIsExpired(t, id, cutoff);
    }
  }

  lemma DueIsExpired(t: Tree, id: string, cutoff: int)
    ensures id in Expired(t, cutoff) <==> id != ".prune" && Due(t, id, cutoff)
  {
    var p := [".agent-pbx-trash", id, "manifest.json"];
    assert p == ManifestOf(id) && |p| == 3 && p[0] == TRASH && p[1] == id;
  }

  /** A prune is accepted exactly if its list is that of the entries that are due and no call fails; and then an
      entry leaves the trash for the quarantine exactly if it is due. */
  lemma PruneMovesDue(t: Tree, ids: seq<string>, cutoff: int, batch: string, fail: nat)
    requires WellFormed(t) && Quarantine(batch) !in t && "batch.json" !in ids
    ensures var out := Pruned(t, ids, cutoff, batch, fail, {});
      && (out.ok <==> ListsDue(t, ids, cutoff) && fail > |ids| + 1 && PruneUsable(t))
      && (out.ok ==> forall id :: id != ".prune" && [".agent-pbx-trash", id] in t ==>
            && ([".agent-pbx-trash", id] !in out.tree <==> Due(t, id, cutoff))
            && (Due(t, id, cutoff) ==> [".agent-pbx-trash", ".prune", batch, id] in out.tree))
  {
    hide WellFormed, Pruned, CurrentPreview, Due, PruneDone, MovedSetAt;
    PreviewListsDue(t, ids, cutoff);
    PruneIsAllOrNothing(t, ids, cutoff, batch, fail);
    var out := Pruned(t, ids, cutoff, batch, fail, {});
    if out.ok {
      forall id | id != ".prune" && [".agent-pbx-trash", id] in t
        ensures [".agent-pbx-trash", id] !in out.tree <==> id in ids
        ensures id in ids ==> [".agent-pbx-trash", ".prune", batch, id] in out.tree
      {
        PrunedGoes(t, out.tree, ids, batch, id);
      }
    }
  }

  lemma PrunedGoes(t: Tree, t': Tree, ids: seq<string>, batch: string, id: string)
    requires PruneDone(t, t', ids, batch) && id != PRUNE && EntryOf(id) in t && "batch.json" !in ids
    ensures EntryOf(id) !in t' <==> id in ids
    ensures id in ids ==> Quarantine(batch) + [id] in t'
    ensures EntryOf(id) == [".agent-pbx-trash", id]
    ensures Quarantine(batch) + [id] == [".agent-pbx-trash", ".prune", batch, id]
  {
    var here, there := EntryOf(id), Quarantine(batch) + [id];
    assert |here| == 2 && here[1] == id && |there| == 4 && there[3] == id;
    assert MovedSetAt(t, t', Root(), Quarantine(batch), ids, here);
    if id in ids {
      assert BatchOf(batch)[3] == "batch.json" && there != BatchOf(batch);
      assert InSet(there, Quarantine(batch), ids) && Rebased(there, Quarantine(batch), Root()) == here;
      assert MovedSetAt(t, t', Root(), Quarantine(batch), ids, there);
    }
  }

  lemma MoveBackNothing(t: Tree, from: Path, to: Path, ids: seq<string>)
    ensures MoveBack(t, from, to, ids, 0, {}) == t
  {
  }

  // ----- Undo -----

  ghost predicate UndoDone(t: Tree, t': Tree, ids: seq<string>, batch: string) {
    && (forall p :: p != BatchOf(batch) ==> MovedSetAt(t, t', Quarantine(batch), Root(), ids, p))
    && BatchOf(batch) in t' && t'[BatchOf(batch)] == File(BatchDoc(Batch(ids, true)))
  }

  lemma ReadyToUndo(t: Tree, ids: seq<string>, batch: string)
    requires WellFormed(t) && Distinct(ids) && PRUNE !in ids && BatchOf(batch) in t
    requires AllMovable(t, Quarantine(batch), Root(), ids)
    ensures Ready(t, Quarantine(batch), Root(), ids, 0)
  {
    PrunePaths(batch);
    AncestorsExist(t, Quarantine(batch), BatchOf(batch));
    AncestorsExist(t, Root(), BatchOf(batch));
    forall k | 0 <= k < |ids|
      ensures !(Quarantine(batch) + [ids[k]] <= Root()) && !(Root() + [ids[k]] <= Quarantine(batch))
    {
      assert (Root() + [ids[k]])[1] == ids[k] && Quarantine(batch)[1] == PRUNE;
    }
  }

  /** Whichever call of an undo fails, if the compensating renames work: either every entry of the
      batch is back in the trash, or nothing has changed at all. */
  lemma UndoIsAllOrNothing(t: Tree, batch: string, fail: nat)
    requires WellFormed(t) && IsUuid(batch) && AppliedBatch(t, batch).Some?
    requires var ids := AppliedBatch(t, batch).value.ids; Distinct(ids) && PRUNE !in ids && "batch.json" !in ids
    ensures var out := Undone(t, batch, fail, {}); var ids := AppliedBatch(t, batch).value.ids;
      && WellFormed(out.tree)
      && (out.ok <==> AllMovable(t, Quarantine(batch), Root(), ids) && fail > |ids|)
      && (if out.ok then UndoDone(t, out.tree, ids, batch) else out.tree == t)
  {
    hide Root, Quarantine, BatchOf, WellFormed, MovedSetAt, MoveBack, MoveAll, WriteDoc;
    PrunePaths(batch);
    var doc := AppliedBatch(t, batch).value;
    if AllMovable(t, Quarantine(batch), Root(), doc.ids) {
      ReadyToUndo(t, doc.ids, batch);
      MoveAllWorks(t, Quarantine(batch), Root(), doc.ids, 0, fail + 1);
      MoveBackNothing(t, Quarantine(batch), Root(), doc.ids);
      if fail > |doc.ids| {
        UndoWrites(t, MoveAll(t, Quarantine(batch), Root(), doc.ids, 0, fail + 1).tree, doc, batch);
        assert doc.ids[0..|doc.ids|] == doc.ids;
      }
    }
  }

  lemma UndoWrites(t: Tree, moved: Tree, doc: Batch, batch: string)
    requires WellFormed(moved) && AppliedBatch(t, batch) == Some(doc)
    requires MovedSet(t, moved, Quarantine(batch), Root(), doc.ids[0..|doc.ids|]) && IsDir(moved, Quarantine(batch))
    requires PRUNE !in doc.ids && "batch.json" !in doc.ids
    ensures var written := WriteDoc(moved, BatchOf(batch), BatchDoc(doc.(undone := true)));
      written.Some? && WellFormed(written.value) && UndoDone(t, written.value, doc.ids, batch)
  {
    PrunePaths(batch);
    var ids := doc.ids;
    assert ids[0..|ids|] == ids;
    var p := BatchOf(batch);
    assert !InSet(p, Root(), ids) && !InSet(p, Quarantine(batch), ids) by {
      assert p[|Root()|] == PRUNE && p[|Quarantine(batch)|] == "batch.json";
    }
    assert MovedSetAt(t, moved, Quarantine(batch), Root(), ids, p);
    WriteWorks(moved, p, BatchDoc(doc.(undone := true)));
    var written := WriteDoc(moved, p, BatchDoc(doc.(undone := true))).value;
    forall q | q != p
      ensures MovedSetAt(t, written, Quarantine(batch), Root(), ids, q)
    {
      assert MovedSetAt(t, moved, Quarantine(batch), Root(), ids, q) && SameAt(moved, written, q);
    }
  }

  // ----- Prune and undo together -----

  /** Undoing a prune gives back every entry, and everything else, exactly as it was; only the
      directories made for the batch and its record are left. */
  lemma PruneThenUndo(t: Tree, ids: seq<string>, cutoff: int, batch: string)
    requires WellFormed(t) && Quarantine(batch) !in t && "batch.json" !in ids && IsUuid(batch)
    requires CurrentPreview(t, ids, cutoff) && PruneUsable(t)
    ensures var pruned := Pruned(t, ids, cutoff, batch, |ids| + 2, {});
      var undone := Undone(pruned.tree, batch, |ids| + 1, {});
      && pruned.ok && undone.ok
      && (forall p :: p !in {Root(), Root() + [PRUNE], Quarantine(batch), BatchOf(batch)} ==> SameAt(t, undone.tree, p))
  {
    hide Root, Quarantine, BatchOf, WellFormed, Expired, MovedSetAt, Pruned, Undone, AllMovable;
    PruneIsAllOrNothing(t, ids, cutoff, batch, |ids| + 2);
    var t1 := Pruned(t, ids, cutoff, batch, |ids| + 2, {}).tree;
    PrunedIsMovable(t, t1, ids, cutoff, batch);
    UndoIsAllOrNothing(t1, batch, |ids| + 1);
    var t2 := Undone(t1, batch, |ids| + 1, {}).tree;
    forall p | p !in {Root(), Root() + [PRUNE], Quarantine(batch), BatchOf(batch)}
      ensures SameAt(t, t2, p)
    {
      PrunedAndUndoneAt(t, t1, t2, ids, cutoff, batch, p);
    }
  }

  lemma PrunedIsMovable(t: Tree, t1: Tree, ids: seq<string>, cutoff: int, batch: string)
    requires WellFormed(t) && CurrentPreview(t, ids, cutoff) && PruneDone(t, t1, ids, batch) && "batch.json" !in ids
    ensures PRUNE !in ids && AppliedBatch(t1, batch) == Some(Batch(ids, false))
    ensures AllMovable(t1, Quarantine(batch), Root(), ids)
  {
    hide Expired, WellFormed;
    PrunePaths(batch);
    forall k | 0 <= k < |ids|
      ensures ids[k] != PRUNE && IsDir(t1, Quarantine(batch) + [ids[k]]) && Root() + [ids[k]] !in t1
    {
      InPreview(t, ids, cutoff, k);
      EntryPaths(ids[k]);
      AncestorsExist(t, EntryOf(ids[k]), ManifestOf(ids[k]));
      var there, here := Quarantine(batch) + [ids[k]], Root() + [ids[k]];
      assert there[|Quarantine(batch)|] == ids[k] && here[|Root()|] == ids[k];
      assert InSet(there, Quarantine(batch), ids) && InSet(here, Root(), ids);
      assert Rebased(there, Quarantine(batch), Root()) == here;
      assert |there| == 4 && there != BatchOf(batch);
      assert MovedSetAt(t, t1, Root(), Quarantine(batch), ids, there);
      assert !InSet(here, Quarantine(batch), ids);
      assert here[1] != PRUNE;
      assert MovedSetAt(t, t1, Root(), Quarantine(batch), ids, here);
    }
  }

  lemma PrunedAndUndoneAt(t: Tree, t1: Tree, t2: Tree, ids: seq<string>, cutoff: int, batch: string, p: Path)
    requires WellFormed(t) && Quarantine(batch) !in t && PRUNE !in ids && "batch.json" !in ids
    requires PruneDone(t, t1, ids, batch) && UndoDone(t1, t2, ids, batch)
    requires p !in {Root(), Root() + [PRUNE], Quarantine(batch), BatchOf(batch)}
    ensures SameAt(t, t2, p)
  {
    hide WellFormed;
    AbsentUnderMissing(t, Quarantine(batch));
    assert MovedSetAt(t, t1, Root(), Quarantine(batch), ids, p);
    assert MovedSetAt(t1, t2, Quarantine(batch), Root(), ids, p);
    if InSet(p, Root(), ids) {
      assert p[1] != PRUNE;
      OriginInSet(p, Quarantine(batch), Root(), ids);
      var q := Rebased(p, Root(), Quarantine(batch));
      assert |q| >= 4 && q[3] == p[1];
      assert MovedSetAt(t, t1, Root(), Quarantine(batch), ids, q);
    }
  }

  // ----- Compensating renames that fail -----

  ghost predicate MovedSoFar(t: Tree, from: Path, to: Path, ids: seq<string>, k: nat) {
    && WellFormed(t) && IsDir(t, from) && IsDir(t, to) && k <= |ids|
    && Distinct(ids) && DirsOutside(from, to, ids)
    && (forall j :: 0 <= j < k ==> to + [ids[j]] in t && from + [ids[j]] !in t)
  }

  lemma {:induction false} MoveBackKeeps(
      t: Tree, from: Path, to: Path, ids: seq<string>, k: nat, undoFails: set<string>)
    requires MovedSoFar(t, from, to, ids, k)
    ensures var r := MoveBack(t, from, to, ids, k, undoFails);
      forall j :: 0 <= j < |ids| ==>
        && (from + [ids[j]] in r <==> if j < k then ids[j] !in undoFails else from + [ids[j]] in t)
        && (to + [ids[j]] in r <==> if j < k then ids[j] in undoFails else to + [ids[j]] in t)
    decreases k
  {
    hide Moved, WellFormed, Subtree, Rename;
    if k > 0 {
      var id := ids[k - 1];
      if id in undoFails {
        MoveBackKeeps(t, from, to, ids, k - 1, undoFails);
      } else {
        OneMoveBack(t, from, to, ids, k);
        MoveBackKeeps(Moved(t, to + [id], from + [id]), from, to, ids, k - 1, undoFails);
      }
    }
  }

  lemma OneMoveBack(t: Tree, from: Path, to: Path, ids: seq<string>, k: nat)
    requires k > 0 && MovedSoFar(t, from, to, ids, k)
    ensures var a, b := to + [ids[k - 1]], from + [ids[k - 1]]; var t' := Moved(t, a, b);
      && Rename(t, a, b) == Some(t') && MovedSoFar(t', from, to, ids, k - 1)
      && (forall p :: !(a <= p) && !(b <= p) ==> SameAt(t, t', p))
      && forall j :: 0 <= j < |ids| ==>
           && (from + [ids[j]] in t' <==> j == k - 1 || from + [ids[j]] in t)
           && (to + [ids[j]] in t' <==> j != k - 1 && to + [ids[j]] in t)
  {
    hide Moved, WellFormed, Subtree, Rename;
    var id := ids[k - 1];
    var a, b := to + [id], from + [id];
    assert DirsOutside(to, from, [id, id]);
    ChildrenApart(to, from, id, id);
    ChildParent(to, id);
    ChildParent(from, id);
    RenameWorks(t, a, b);
    var t' := Moved(t, a, b);
    assert SameAt(t, t', from) && SameAt(t, t', to);
    assert a in t && b !in t && a !in t' && b in t';
    forall j | 0 <= j < |ids| && j != k - 1
      ensures SameAt(t, t', from + [ids[j]]) && SameAt(t, t', to + [ids[j]])
    {
      DistinctChildren(from, id, ids[j]);
      DistinctChildren(to, id, ids[j]);
      assert DirsOutside(to, from, [id, ids[j]]) && DirsOutside(to, from, [ids[j], id]);
      ChildrenApart(to, from, id, ids[j]);
      ChildrenApart(to, from, ids[j], id);
    }
  }

  /** The quarantine is removed even when entries are still in it. A failed prune loses exactly the
      entries it had moved and could not move back. */
  lemma FailedPruneLosesIff(
      t: Tree, ids: seq<string>, cutoff: int, batch: string, fail: nat, undoFails: set<string>, j: nat)
    requires WellFormed(t) && Quarantine(batch) !in t && "batch.json" !in ids
    requires CurrentPreview(t, ids, cutoff) && PruneUsable(t)
    requires 0 < fail <= |ids| + 1 && j < |ids|
    ensures var out := Pruned(t, ids, cutoff, batch, fail, undoFails);
      && !out.ok && EntryOf(ids[j]) in t
      && (EntryOf(ids[j]) in out.tree <==> !(j < fail - 1 && ids[j] in undoFails))
  {
    hide Root, Quarantine, BatchOf, EntryOf, WellFormed, Expired, MovedSetAt, MoveBack, MoveAll, MakeDirs, WriteDoc;
    QuarantineMade(t, batch);
    PrunePaths(batch);
    var made := MakeDirs(t, Quarantine(batch), false).value;
    ReadyToPrune(t, made, ids, cutoff, batch);
    MoveAllWorks(made, Root(), Quarantine(batch), ids, 0, fail);
    var p := MoveAll(made, Root(), Quarantine(batch), ids, 0, fail);
    MovedAreThere(made, p.tree, Root(), Quarantine(batch), ids, p.moved);
    MoveBackKeeps(p.tree, Root(), Quarantine(batch), ids, p.moved, undoFails);
    var back := MoveBack(p.tree, Root(), Quarantine(batch), ids, p.moved, undoFails);
    InPreview(t, ids, cutoff, j);
    EntryOutsideQuarantine(ids[j], batch);
    assert Root() + [ids[j]] == EntryOf(ids[j]);
    assert EntryOf(ids[j]) in RemoveTree(back, Quarantine(batch)) <==> EntryOf(ids[j]) in back;
  }

  lemma EntryOutsideQuarantine(id: string, batch: string)
    ensures !(Quarantine(batch) <= EntryOf(id))
  {
  }

  lemma MovedAreThere(t: Tree, t': Tree, from: Path, to: Path, ids: seq<string>, n: nat)
    requires n <= |ids| && Ready(t, from, to, ids, 0) && Ready(t', from, to, ids, n)
    requires MovedSet(t, t', from, to, ids[0..n])
    ensures MovedSoFar(t', from, to, ids, n)
    ensures forall j :: n <= j < |ids| ==> from + [ids[j]] in t'
  {
    hide WellFormed;
    forall j | 0 <= j < n
      ensures to + [ids[j]] in t' && from + [ids[j]] !in t'
    {
      var there, here := to + [ids[j]], from + [ids[j]];
      assert ids[0..n][j] == ids[j];
      assert InSet(there, to, ids[0..n]) && InSet(here, from, ids[0..n]);
      assert Rebased(there, to, from) == here;
      assert MovedSetAt(t, t', from, to, ids[0..n], there);
      SetsDisjoint(here, from, to, ids);
      assert !InSet(here, to, ids[0..n]);
      assert MovedSetAt(t, t', from, to, ids[0..n], here);
    }
  }

  /** The way back touches the moved entries only, and a rename that fails for nobody is as good as none. */
  lemma {:induction false} MoveBackElsewhere(
      t: Tree, from: Path, to: Path, ids: seq<string>, k: nat, undoFails: set<string>, p: Path)
    requires MovedSoFar(t, from, to, ids, k)
    requires forall j :: 0 <= j < k ==> !(from + [ids[j]] <= p) && !(to + [ids[j]] <= p)
    ensures SameAt(t, MoveBack(t, from, to, ids, k, undoFails), p)
    ensures (forall j :: 0 <= j < k ==> ids[j] !in undoFails) ==>
      MoveBack(t, from, to, ids, k, undoFails) == MoveBack(t, from, to, ids, k, {})
    decreases k
  {
    hide Moved, WellFormed, Subtree, Rename;
    if k > 0 {
      var id := ids[k - 1];
      if id in undoFails {
        MoveBackElsewhere(t, from, to, ids, k - 1, undoFails, p);
      } else {
        OneMoveBack(t, from, to, ids, k);
        assert !(from + [ids[k - 1]] <= p) && !(to + [ids[k - 1]] <= p);
        assert SameAt(t, Moved(t, to + [id], from + [id]), p);
        MoveBackElsewhere(Moved(t, to + [id], from + [id]), from, to, ids, k - 1, undoFails, p);
      }
    }
  }

  lemma RecordIsElsewhere(batch: string, ids: seq<string>, j: nat)
    requires j < |ids| && PRUNE !in ids && "batch.json" !in ids
    ensures !(Quarantine(batch) + [ids[j]] <= BatchOf(batch)) && !(Root() + [ids[j]] <= BatchOf(batch))
  {
    PrunePaths(batch);
    assert (Quarantine(batch) + [ids[j]])[|Quarantine(batch)|] == ids[j];
    assert BatchOf(batch)[|Quarantine(batch)|] == "batch.json" && BatchOf(batch)[|Root()|] == PRUNE;
    assert (Root() + [ids[j]])[|Root()|] == ids[j];
  }

  lemma RecordNotMoved(t: Tree, t': Tree, batch: string, ids: seq<string>, n: nat)
    requires PRUNE !in ids && "batch.json" !in ids && n <= |ids|
    requires MovedSet(t, t', Quarantine(batch), Root(), ids[0..n])
    ensures SameAt(t, t', BatchOf(batch))
  {
    PrunePaths(batch);
    var p := BatchOf(batch);
    assert p[|Quarantine(batch)|] == "batch.json" && p[|Root()|] == PRUNE;
    assert MovedSetAt(t, t', Quarantine(batch), Root(), ids[0..n], p);
  }

  lemma SameRecord(t: Tree, t': Tree, t'': Tree, batch: string)
    requires SameAt(t, t', BatchOf(batch)) && SameAt(t', t'', BatchOf(batch))
    ensures AppliedBatch(t'', batch) == AppliedBatch(t, batch)
  {
  }

  /** An entry that the failed undo had moved and could not move back. */
  predicate Stranded(ids: seq<string>, fail: nat, undoFails: set<string>, j: nat) {
    j < |ids| && j < fail && ids[j] in undoFails
  }

  /** An undo in which a call fails leaves in the trash exactly the entries it had moved and could not move
      back; the others are in the quarantine. The batch stays applied. If no entry is stranded, nothing has
      changed; if one is, it stands in the way of its own batch, and every further undo is refused. */
  lemma FailedUndoStrandsIff(t: Tree, batch: string, fail: nat, undoFails: set<string>)
    requires WellFormed(t) && IsUuid(batch) && AppliedBatch(t, batch).Some?
    requires var ids := AppliedBatch(t, batch).value.ids;
      && Distinct(ids) && PRUNE !in ids && "batch.json" !in ids
      && AllMovable(t, Quarantine(batch), Root(), ids) && fail <= |ids|
    ensures var out := Undone(t, batch, fail, undoFails); var ids := AppliedBatch(t, batch).value.ids;
      && !out.ok && AppliedBatch(out.tree, batch) == AppliedBatch(t, batch)
      && (forall j :: 0 <= j < |ids| ==>
            && (Root() + [ids[j]] in out.tree <==> Stranded(ids, fail, undoFails, j))
            && (Quarantine(batch) + [ids[j]] in out.tree <==> !Stranded(ids, fail, undoFails, j)))
      && (out.tree == t <==> forall j: nat :: !Stranded(ids, fail, undoFails, j))
    ensures var out := Undone(t, batch, fail, undoFails); var ids := AppliedBatch(t, batch).value.ids;
      forall j: nat, again, more :: Stranded(ids, fail, undoFails, j) ==>
        Undone(out.tree, batch, again, more) == Outcome(out.tree, false)
  {
    hide Root, Quarantine, BatchOf, WellFormed, MovedSetAt, MoveBack, MoveAll, WriteDoc, SameAt;
    PrunePaths(batch);
    var ids := AppliedBatch(t, batch).value.ids;
    ReadyToUndo(t, ids, batch);
    MoveAllWorks(t, Quarantine(batch), Root(), ids, 0, fail + 1);
    var p := MoveAll(t, Quarantine(batch), Root(), ids, 0, fail + 1);
    MovedAreThere(t, p.tree, Quarantine(batch), Root(), ids, p.moved);
    MoveBackKeeps(p.tree, Quarantine(batch), Root(), ids, p.moved, undoFails);
    var back := MoveBack(p.tree, Quarantine(batch), Root(), ids, p.moved, undoFails);
    forall j | 0 <= j < p.moved
      ensures !(Quarantine(batch) + [ids[j]] <= BatchOf(batch)) && !(Root() + [ids[j]] <= BatchOf(batch))
    {
      RecordIsElsewhere(batch, ids, j);
    }
    MoveBackElsewhere(p.tree, Quarantine(batch), Root(), ids, p.moved, undoFails, BatchOf(batch));
    RecordNotMoved(t, p.tree, batch, ids, p.moved);
    SameRecord(t, p.tree, back, batch);
    UndoIsAllOrNothing(t, batch, fail);
  }
}
