/** One delete and one restore: all or nothing under failures, and each the inverse of the other. */
module TrashSingle {
  import opened Options
  import opened FileTree
  import opened Trash

  /** Nothing has changed but, perhaps, that the trash directory exists now. */
  ghost predicate Unchanged(t: Tree, t': Tree) {
    forall p :: p != Root() ==> SameAt(t, t', p)
  }

  /** The project: everything that is not in the trash. */
  ghost predicate SameProject(t: Tree, t': Tree) {
    forall p :: !(Root() <= p) ==> SameAt(t, t', p)
  }

  predicate TrashUsable(t: Tree) { Root() in t ==> t[Root()].Dir? }

  // ----- Where things lie -----

  lemma EntryPaths(id: string)
    ensures Parent(EntryOf(id)) == Root() && Parent(Root()) == []
    ensures Parent(ContentOf(id)) == EntryOf(id) && Parent(ManifestOf(id)) == EntryOf(id)
    ensures Root() <= EntryOf(id) && EntryOf(id) <= ContentOf(id) && EntryOf(id) <= ManifestOf(id)
    ensures Apart(ContentOf(id), ManifestOf(id))
    ensures !(EntryOf(id) <= Root()) && !(ContentOf(id) <= EntryOf(id)) && !(ManifestOf(id) <= EntryOf(id))
  {
    assert ContentOf(id)[2] != ManifestOf(id)[2];
  }

  lemma TargetApart(target: Path, id: string)
    requires LegalTarget(target)
    ensures Apart(target, ContentOf(id)) && Apart(target, EntryOf(id))
    ensures Apart(target, Root()) && Apart(target, ManifestOf(id))
  {
    assert target[0] != TRASH;
  }

  /** The parent of a target is not in the trash either. */
  lemma TargetParent(t: Tree, target: Path)
    requires WellFormed(t) && LegalTarget(target) && target in t
    ensures IsDir(t, Parent(target)) && !(Root() <= Parent(target)) && !(target <= Parent(target))
  {
    AncestorsExist(t, Parent(target), target);
    AboveParent(Root(), target);
    TargetApart(target, "");
  }

  lemma ApartBelow(p: Path, q: Path, r: Path)
    requires Apart(p, q) && p <= r
    ensures !(q <= r)
  {
    if q <= r {
      PrefixesComparable(p, q, r);
    }
  }

  // ----- Delete, step by step -----

  ghost predicate EntryIsMade(t: Tree, made: Tree, id: string) {
    && WellFormed(made) && IsDir(made, EntryOf(id))
    && (forall p :: p != Root() && p != EntryOf(id) ==> SameAt(t, made, p))
    && ContentOf(id) !in made && ManifestOf(id) !in made
  }

  lemma EntryMade(t: Tree, id: string)
    requires WellFormed(t) && EntryOf(id) !in t
    ensures MakeDirs(t, EntryOf(id), false).Some? <==> TrashUsable(t)
    ensures TrashUsable(t) ==> EntryIsMade(t, MakeDirs(t, EntryOf(id), false).value, id)
  {
    hide Root, EntryOf, ContentOf, ManifestOf;
    EntryPaths(id);
    assert MakeDirs(t, [], true) == Some(t);
    AbsentUnderMissing(t, EntryOf(id));
    if TrashUsable(t) {
      if Root() in t {
        assert MakeDirs(t, EntryOf(id), false) == Some(t[EntryOf(id) := Dir]);
      } else {
        RootIsNotEmpty();
        assert MakeDirs(t, Root(), true) == Some(t[Root() := Dir]);
        assert MakeDirs(t, EntryOf(id), false) == Some(t[Root() := Dir][EntryOf(id) := Dir]);
      }
      MakeDirsAdds(t, EntryOf(id), false);
    }
  }

  lemma RootIsNotEmpty()
    ensures Root() != []
  {
  }

  ghost predicate TargetIsMoved(t: Tree, moved: Tree, target: Path, id: string) {
    && WellFormed(moved) && IsDir(moved, EntryOf(id))
    && Subtree(moved, ContentOf(id)) == Subtree(t, target) && ContentOf(id) in moved
    && Absent(moved, target) && ManifestOf(id) !in moved
    && (forall p :: !(target <= p) && !(ContentOf(id) <= p) && p != Root() && p != EntryOf(id) ==> SameAt(t, moved, p))
  }

  /** Moving the target into a new entry, and back. */
  lemma TargetMoved(t: Tree, made: Tree, target: Path, id: string)
    requires WellFormed(t) && EntryOf(id) !in t && LegalTarget(target) && target in t
    requires EntryIsMade(t, made, id)
    ensures var moved := Moved(made, target, ContentOf(id));
      && Rename(made, target, ContentOf(id)) == Some(moved)
      && Rename(moved, ContentOf(id), target) == Some(made)
      && TargetIsMoved(t, moved, target, id)
  {
    hide Root, EntryOf, ContentOf, ManifestOf, Moved, Subtree, WellFormed;
    EntryPaths(id);
    TargetApart(target, id);
    assert target <= target;
    assert SameAt(t, made, target);
    RenameWorks(made, target, ContentOf(id));
    forall q | target <= q
      ensures SameAt(t, made, q)
    {
      ApartBelow(target, Root(), q);
      ApartBelow(target, EntryOf(id), q);
    }
    SameUnderSubtree(t, made, target);
    var moved := Moved(made, target, ContentOf(id));
    assert SameAt(made, moved, EntryOf(id)) && SameAt(made, moved, ManifestOf(id));
    forall p | !(target <= p) && !(ContentOf(id) <= p) && p != Root() && p != EntryOf(id)
      ensures SameAt(t, moved, p)
    {
      assert SameAt(made, moved, p) && SameAt(t, made, p);
    }
  }

  /** Removing a new entry takes the tree back to where it was, except for the trash directory. */
  lemma EntryRemoved(t: Tree, s: Tree, id: string)
    requires WellFormed(t) && WellFormed(s) && EntryOf(id) !in t
    requires forall p :: !(EntryOf(id) <= p) && p != Root() ==> SameAt(t, s, p)
    ensures Unchanged(t, RemoveTree(s, EntryOf(id))) && WellFormed(RemoveTree(s, EntryOf(id)))
  {
    hide Root, EntryOf;
    EntryPaths(id);
    AbsentUnderMissing(t, EntryOf(id));
    RemoveKeepsWellFormed(s, EntryOf(id));
    forall p | p != Root()
      ensures SameAt(t, RemoveTree(s, EntryOf(id)), p)
    {
      if !(EntryOf(id) <= p) {
        assert SameAt(t, s, p);
      }
    }
  }

  // ----- Delete -----

  ghost predicate DeleteDone(t: Tree, t': Tree, target: Path, id: string, expiresAt: int) {
    && Subtree(t', ContentOf(id)) == Subtree(t, target)
    && Absent(t', target)
    && ManifestOf(id) in t' && t'[ManifestOf(id)] == File(DeleteManifest(target, expiresAt))
    && IsDir(t', EntryOf(id)) && ContentOf(id) in t'
    && (forall p :: !(target <= p) && !(EntryOf(id) <= p) && p != Root() ==> SameAt(t, t', p))
  }

  lemma ManifestWritten(t: Tree, moved: Tree, target: Path, id: string, expiresAt: int)
    requires LegalTarget(target) && TargetIsMoved(t, moved, target, id)
    ensures var written := WriteDoc(moved, ManifestOf(id), DeleteManifest(target, expiresAt));
      written.Some? && WellFormed(written.value) && DeleteDone(t, written.value, target, id, expiresAt)
  {
    hide Root, EntryOf, ContentOf, ManifestOf, Subtree, WellFormed;
    EntryPaths(id);
    TargetApart(target, id);
    var data := DeleteManifest(target, expiresAt);
    RootIsNotEmpty();
    WriteWorks(moved, ManifestOf(id), data);
    var written := WriteDoc(moved, ManifestOf(id), data).value;
    forall q | ContentOf(id) <= q
      ensures SameAt(moved, written, q)
    {
      ApartBelow(ContentOf(id), ManifestOf(id), q);
      assert ManifestOf(id) <= ManifestOf(id);
    }
    SameUnderSubtree(moved, written, ContentOf(id));
    forall q | target <= q
      ensures q !in written
    {
      ApartBelow(target, ManifestOf(id), q);
      assert ManifestOf(id) <= ManifestOf(id);
      assert SameAt(moved, written, q);
    }
    assert ContentOf(id) <= ContentOf(id);
    assert SameAt(moved, written, ContentOf(id)) && SameAt(moved, written, EntryOf(id));
    forall p | !(target <= p) && !(EntryOf(id) <= p) && p != Root()
      ensures SameAt(t, written, p)
    {
      assert !(ContentOf(id) <= p) && p != ManifestOf(id) && p != EntryOf(id);
      assert SameAt(moved, written, p) && SameAt(t, moved, p);
    }
  }

  lemma DeleteSucceeds(t: Tree, target: Path, id: string, expiresAt: int, fail: nat, undoFails: bool)
    requires WellFormed(t) && EntryOf(id) !in t && LegalTarget(target) && target in t
    requires fail > 2 && TrashUsable(t)
    ensures var out := Deleted(t, target, id, expiresAt, fail, undoFails);
      out.ok && WellFormed(out.tree) && DeleteDone(t, out.tree, target, id, expiresAt)
  {
    hide Root, EntryOf, ContentOf, ManifestOf, Moved, MakeDirs, Rename, WriteDoc, RemoveTree, WellFormed, Subtree;
    EntryMade(t, id);
    var made := MakeDirs(t, EntryOf(id), false).value;
    TargetMoved(t, made, target, id);
    ManifestWritten(t, Moved(made, target, ContentOf(id)), target, id, expiresAt);
  }

  lemma DeleteFailsClean(t: Tree, target: Path, id: string, expiresAt: int, fail: nat, undoFails: bool)
    requires WellFormed(t) && EntryOf(id) !in t && LegalTarget(target) && target in t
    requires fail <= 2 || !TrashUsable(t)
    requires !(undoFails && fail == 2 && TrashUsable(t))
    ensures var out := Deleted(t, target, id, expiresAt, fail, undoFails);
      !out.ok && WellFormed(out.tree) && Unchanged(t, out.tree)
  {
    hide Root, EntryOf, ContentOf, ManifestOf, Moved, MakeDirs, Rename, WriteDoc, RemoveTree, WellFormed, Subtree;
    EntryMade(t, id);
    EntryPaths(id);
    TargetApart(target, id);
    if fail == 0 || !TrashUsable(t) {
      EntryRemoved(t, t, id);
    } else {
      var made := MakeDirs(t, EntryOf(id), false).value;
      TargetMoved(t, made, target, id);
      assert SameAt(t, made, target);
      assert EntryOf(id) <= EntryOf(id);
      EntryRemoved(t, made, id);
      if fail == 2 {
        var moved := Moved(made, target, ContentOf(id));
        assert target <= target && target !in moved;
      }
    }
  }

  /** Whichever call of a delete fails, if the compensating rename works: either the subtree has
      gone to the trash unchanged and nothing else has moved, or nothing has changed at all. */
  lemma DeleteIsAllOrNothing(t: Tree, target: Path, id: string, expiresAt: int, fail: nat)
    requires WellFormed(t) && EntryOf(id) !in t && LegalTarget(target) && target in t
    ensures var out := Deleted(t, target, id, expiresAt, fail, false);
      && WellFormed(out.tree)
      && (out.ok <==> fail > 2 && TrashUsable(t))
      && (if out.ok then DeleteDone(t, out.tree, target, id, expiresAt) else Unchanged(t, out.tree))
  {
    if fail > 2 && TrashUsable(t) {
      DeleteSucceeds(t, target, id, expiresAt, fail, false);
    } else {
      DeleteFailsClean(t, target, id, expiresAt, fail, false);
    }
  }

  /** Without that assumption the subtree can be lost: the entry is removed even when renaming back
      has failed. A failed delete loses it exactly when the manifest write fails and then the
      compensating rename fails too. */
  lemma FailedDeleteLosesIff(t: Tree, target: Path, id: string, expiresAt: int, fail: nat, undoFails: bool)
    requires WellFormed(t) && EntryOf(id) !in t && LegalTarget(target) && target in t
    ensures var out := Deleted(t, target, id, expiresAt, fail, undoFails);
      && (Absent(out.tree, target) && Absent(out.tree, ContentOf(id)) <==> undoFails && fail == 2 && TrashUsable(t))
      && (!(undoFails && fail == 2 && TrashUsable(t)) ==> out.ok || Unchanged(t, out.tree))
  {
    EntryMade(t, id);
    EntryPaths(id);
    TargetApart(target, id);
    assert target <= target && ContentOf(id) <= ContentOf(id);
    if undoFails && fail == 2 && TrashUsable(t) {
      var made := MakeDirs(t, EntryOf(id), false).value;
      TargetMoved(t, made, target, id);
      LostEverywhere(Moved(made, target, ContentOf(id)), target, id);
    } else if fail > 2 && TrashUsable(t) {
      DeleteSucceeds(t, target, id, expiresAt, fail, undoFails);
    } else {
      DeleteFailsClean(t, target, id, expiresAt, fail, undoFails);
      assert SameAt(t, Deleted(t, target, id, expiresAt, fail, undoFails).tree, target);
    }
  }

  lemma LostEverywhere(moved: Tree, target: Path, id: string)
    requires Absent(moved, target)
    ensures Absent(RemoveTree(moved, EntryOf(id)), target) && Absent(RemoveTree(moved, EntryOf(id)), ContentOf(id))
  {
    EntryPaths(id);
    var left := RemoveTree(moved, EntryOf(id));
    forall p | ContentOf(id) <= p
      ensures p !in left
    {
      assert EntryOf(id) <= p;
    }
  }

  // ----- Restore -----

  ghost predicate Restorable(t: Tree, id: string) {
    && IsUuid(id) && ActiveManifest(t, id).Some? && ContentOf(id) in t
    && var destination := ActiveManifest(t, id).value.original;
       LegalTarget(destination) && destination !in t && IsDir(t, Parent(destination))
  }

  ghost predicate RestoreMoved(t: Tree, t': Tree, id: string, destination: Path) {
    && Subtree(t', destination) == Subtree(t, ContentOf(id))
    && Absent(t', ContentOf(id))
    && (forall p :: !(destination <= p) && !(ContentOf(id) <= p) && p != ManifestOf(id) ==> SameAt(t, t', p))
  }

  ghost predicate HasManifest(t: Tree, id: string, manifest: Manifest) {
    ManifestOf(id) in t && t[ManifestOf(id)] == File(ManifestDoc(manifest))
  }

  /** A restore moves the subtree unless the rename fails; if only the manifest write fails, the
      restore is reported as failed although the subtree is back in its place. */
  lemma RestoreMovesOrRefuses(t: Tree, id: string, fail: nat)
    requires WellFormed(t)
    requires ActiveManifest(t, id).Some? ==> LegalTarget(ActiveManifest(t, id).value.original)
    ensures var out := Restored(t, id, fail);
      && WellFormed(out.tree)
      && (if Restorable(t, id) && fail != 0
          then
            && RestoreMoved(t, out.tree, id, ActiveManifest(t, id).value.original) && (out.ok <==> fail != 1)
            && HasManifest(out.tree, id, ActiveManifest(t, id).value.(restored := out.ok))
          else out == Outcome(t, false))
  {
    if Restorable(t, id) && fail != 0 {
      var manifest := ActiveManifest(t, id).value;
      var destination, content := manifest.original, ContentOf(id);
      ContentMoved(t, id, destination);
      if fail != 1 {
        ManifestRewritten(t, Moved(t, content, destination), id, destination, ManifestDoc(manifest.(restored := true)));
      }
    }
  }

  lemma ContentMoved(t: Tree, id: string, destination: Path)
    requires WellFormed(t) && LegalTarget(destination) && destination !in t && IsDir(t, Parent(destination))
    requires ContentOf(id) in t && IsDir(t, EntryOf(id)) && ManifestOf(id) in t && t[ManifestOf(id)].File?
    ensures var moved := Moved(t, ContentOf(id), destination);
      && Rename(t, ContentOf(id), destination) == Some(moved) && WellFormed(moved)
      && RestoreMoved(t, moved, id, destination)
      && IsDir(moved, EntryOf(id)) && !IsDir(moved, ManifestOf(id)) && SameAt(t, moved, ManifestOf(id))
  {
    hide Root, EntryOf, ContentOf, ManifestOf, Moved, Subtree, WellFormed;
    EntryPaths(id);
    TargetApart(destination, id);
    var content := ContentOf(id);
    RenameWorks(t, content, destination);
    var moved := Moved(t, content, destination);
    assert SameAt(t, moved, EntryOf(id)) && SameAt(t, moved, ManifestOf(id));
  }

  lemma ManifestRewritten(t: Tree, moved: Tree, id: string, destination: Path, data: Data)
    requires LegalTarget(destination) && WellFormed(moved) && RestoreMoved(t, moved, id, destination)
    requires IsDir(moved, EntryOf(id)) && !IsDir(moved, ManifestOf(id))
    ensures var written := WriteDoc(moved, ManifestOf(id), data);
      && written.Some? && WellFormed(written.value) && RestoreMoved(t, written.value, id, destination)
      && ManifestOf(id) in written.value && written.value[ManifestOf(id)] == File(data)
  {
    hide Root, EntryOf, ContentOf, ManifestOf, Subtree, WellFormed;
    EntryPaths(id);
    TargetApart(destination, id);
    RootIsNotEmpty();
    WriteWorks(moved, ManifestOf(id), data);
    var written := WriteDoc(moved, ManifestOf(id), data).value;
    assert ManifestOf(id) <= ManifestOf(id);
    forall q | destination <= q
      ensures SameAt(moved, written, q)
    {
      ApartBelow(destination, ManifestOf(id), q);
    }
    SameUnderSubtree(moved, written, destination);
    forall q | ContentOf(id) <= q
      ensures q !in written
    {
      ApartBelow(ContentOf(id), ManifestOf(id), q);
      assert SameAt(moved, written, q);
    }
    forall p | !(destination <= p) && !(ContentOf(id) <= p) && p != ManifestOf(id)
      ensures SameAt(t, written, p)
    {
      assert SameAt(moved, written, p) && SameAt(t, moved, p);
    }
  }

  /** Deleting a path and restoring it gives the project back exactly as it was. */
  lemma DeleteThenRestore(t: Tree, target: Path, id: string, expiresAt: int)
    requires WellFormed(t) && EntryOf(id) !in t && LegalTarget(target) && target in t
    requires TrashUsable(t) && IsUuid(id)
    ensures var deleted := Deleted(t, target, id, expiresAt, 3, false);
      var restored := Restored(deleted.tree, id, 2);
      deleted.ok && restored.ok && SameProject(t, restored.tree)
  {
    DeleteSucceeds(t, target, id, expiresAt, 3, false);
    var t1 := Deleted(t, target, id, expiresAt, 3, false).tree;
    DeletedIsRestorable(t, t1, target, id, expiresAt);
    RestoreMovesOrRefuses(t1, id, 2);
    ThereAndBack(t, t1, Restored(t1, id, 2).tree, target, id, expiresAt);
  }

  lemma DeletedIsRestorable(t: Tree, t1: Tree, target: Path, id: string, expiresAt: int)
    requires WellFormed(t) && LegalTarget(target) && target in t && IsUuid(id)
    requires DeleteDone(t, t1, target, id, expiresAt)
    ensures Restorable(t1, id) && ActiveManifest(t1, id) == Some(Manifest(target, false, expiresAt))
  {
    hide Root, EntryOf, ContentOf, ManifestOf, Subtree, WellFormed;
    EntryPaths(id);
    TargetApart(target, id);
    TargetParent(t, target);
    assert target <= target;
    assert !(EntryOf(id) <= Parent(target)) && Parent(target) != Root();
    assert SameAt(t, t1, Parent(target));
  }

  lemma ThereAndBack(t: Tree, t1: Tree, t2: Tree, target: Path, id: string, expiresAt: int)
    requires LegalTarget(target)
    requires DeleteDone(t, t1, target, id, expiresAt) && RestoreMoved(t1, t2, id, target)
    ensures SameProject(t, t2)
  {
    hide Root, EntryOf, ContentOf, ManifestOf, Subtree;
    EntryPaths(id);
    forall p | !(Root() <= p)
      ensures SameAt(t, t2, p)
    {
      assert !(EntryOf(id) <= p) && !(ContentOf(id) <= p) && p != ManifestOf(id) && p != Root();
      if target <= p {
        var q := p[|target|..];
        assert p == target + q;
        InSubtree(t, target, q);
        InSubtree(t2, target, q);
      } else {
        assert SameAt(t, t1, p) && SameAt(t1, t2, p);
      }
    }
  }
}
