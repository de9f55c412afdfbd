/** The project trash: delete, restore, prune and undo as sequences of file system calls, any one of
    which may fail, with compensating renames after a failure.

    `fail` is the number of the call that fails, counting from 0; a number past the last call means
    that none does. */
module Trash {
  import opened Options
  import opened FileTree

  const TRASH: string := ".agent-pbx-trash"
  const PRUNE: string := ".prune"

  function Root(): Path { [TRASH] }
  function EntryOf(id: string): Path { [TRASH, id] }
  function ContentOf(id: string): Path { [TRASH, id, "content"] }
  function ManifestOf(id: string): Path { [TRASH, id, "manifest.json"] }
  function Quarantine(batch: string): Path { [TRASH, PRUNE, batch] }
  function BatchOf(batch: string): Path { [TRASH, PRUNE, batch, "batch.json"] }

  /** The names that trash entries and batches may have: 36 of the characters of a UUID. */
  predicate IsUuid(id: string) {
    |id| == 36 && forall i :: 0 <= i < |id| ==> id[i] == '-' || '0' <= id[i] <= '9' || 'a' <= id[i] <= 'f'
  }

  lemma UuidIff(id: string)
    ensures IsUuid(id) <==> |id| == 36 && forall i :: 0 <= i < |id| ==> id[i] in "0123456789abcdef-"
  {
    forall c: char
      ensures c in "0123456789abcdef-" <==> c == '-' || '0' <= c <= '9' || 'a' <= c <= 'f'
    {
      IsHexOrHyphen(c);
    }
  }

  lemma IsHexOrHyphen(c: char)
    ensures c in "0123456789abcdef-" <==> c == '-' || '0' <= c <= '9' || 'a' <= c <= 'f'
  {
    var s := "0123456789abcdef-";
    if '0' <= c <= '9' {
      assert s[c as int - '0' as int] == c;
    } else if 'a' <= c <= 'f' {
      assert s[c as int - 'a' as int + 10] == c;
    } else if c == '-' {
      assert s[16] == c;
    }
  }

  /** What may be deleted: any path that has no part in the trash. */
  predicate LegalTarget(target: Path) { target != [] && TRASH !in target }

  datatype Outcome = Outcome(tree: Tree, ok: bool)

  // ----- Delete -----

  function DeleteManifest(target: Path, expiresAt: int): Data {
    ManifestDoc(Manifest(target, false, expiresAt))
  }

  /** The `except` branch: rename back if need be, then remove the entry in any case. */
  function DeleteAborted(t: Tree, target: Path, id: string, undoFails: bool): Outcome {
    var back := if ContentOf(id) in t && target !in t && !undoFails then Rename(t, ContentOf(id), target) else None;
    Outcome(RemoveTree(if back.Some? then back.value else t, EntryOf(id)), false)
  }

  function Deleted(t: Tree, target: Path, id: string, expiresAt: int, fail: nat, undoFails: bool): Outcome {
    var made := if fail == 0 then None else MakeDirs(t, EntryOf(id), false);
    if made.None? then DeleteAborted(t, target, id, undoFails)
    else
      var renamed := if fail == 1 then None else Rename(made.value, target, ContentOf(id));
      if renamed.None? then DeleteAborted(made.value, target, id, undoFails)
      else
        var written := if fail == 2 then None
                       else WriteDoc(renamed.value, ManifestOf(id), DeleteManifest(target, expiresAt));
        if written.None? then DeleteAborted(renamed.value, target, id, undoFails)
        else Outcome(written.value, true)
  }

  // ----- Restore -----

  function ActiveManifest(t: Tree, id: string): Option<Manifest> {
    if IsDir(t, EntryOf(id)) && ManifestOf(id) in t && t[ManifestOf(id)].File? && t[ManifestOf(id)].data.ManifestDoc?
       && !t[ManifestOf(id)].data.manifest.restored
    then Some(t[ManifestOf(id)].data.manifest) else None
  }

  /** A failure after the rename is reported, but nothing is renamed back. */
  function Restored(t: Tree, id: string, fail: nat): Outcome {
    if !IsUuid(id) || ActiveManifest(t, id).None? then Outcome(t, false)
    else
      var manifest := ActiveManifest(t, id).value;
      var destination := manifest.original;
      if destination == [] || destination in t || !IsDir(t, Parent(destination)) || ContentOf(id) !in t then
        Outcome(t, false)
      else
        var renamed := if fail == 0 then None else Rename(t, ContentOf(id), destination);
        if renamed.None? then Outcome(t, false)
        else
          var written := if fail == 1 then None
                         else WriteDoc(renamed.value, ManifestOf(id), ManifestDoc(manifest.(restored := true)));
          if written.None? then Outcome(renamed.value, false) else Outcome(written.value, true)
  }

  // ----- Moving many entries, and moving them back -----

  datatype Progress = Progress(tree: Tree, moved: nat, ok: bool)

  /** The entries `ids[i..]` go from one directory to another; call `i + 1` moves `ids[i]`. */
  function MoveAll(t: Tree, from: Path, to: Path, ids: seq<string>, i: nat, fail: nat): (p: Progress)
    requires i <= |ids|
    ensures i <= p.moved <= |ids| && (p.ok ==> p.moved == |ids|)
    decreases |ids| - i
  {
    if i == |ids| then Progress(t, i, true)
    else
      var renamed := if fail == i + 1 then None else Rename(t, from + [ids[i]], to + [ids[i]]);
      if renamed.None? then Progress(t, i, false) else MoveAll(renamed.value, from, to, ids, i + 1, fail)
  }

  /** The compensating renames for `ids[..k]`, last one first; those in `undoFails` fail silently. */
  function MoveBack(t: Tree, from: Path, to: Path, ids: seq<string>, k: nat, undoFails: set<string>): Tree
    requires k <= |ids|
    decreases k
  {
    if k == 0 then t
    else
      var id := ids[k - 1];
      var back := if to + [id] in t && from + [id] !in t && id !in undoFails
                  then Rename(t, to + [id], from + [id]) else None;
      MoveBack(if back.Some? then back.value else t, from, to, ids, k - 1, undoFails)
  }

  ghost predicate MovesOn(goal: Progress, t: Tree, from: Path, to: Path, ids: seq<string>, i: nat, fail: nat)
    requires i <= |ids|
  {
    goal == MoveAll(t, from, to, ids, i, fail)
  }

  /** One turn of the loop of renames: it stops, or it goes on with the next entry. */
  lemma MoveTurn(goal: Progress, t: Tree, from: Path, to: Path, ids: seq<string>, i: nat, fail: nat)
    requires i < |ids| && MovesOn(goal, t, from, to, ids, i, fail)
    ensures var renamed := if fail == i + 1 then None else Rename(t, from + [ids[i]], to + [ids[i]]);
      && (renamed.None? ==> goal == Progress(t, i, false))
      && (renamed.Some? ==> MovesOn(goal, renamed.value, from, to, ids, i + 1, fail))
  {
    hide Rename;
  }

  lemma MoveEnds(goal: Progress, t: Tree, from: Path, to: Path, ids: seq<string>, fail: nat)
    requires MovesOn(goal, t, from, to, ids, |ids|, fail)
    ensures goal == Progress(t, |ids|, true)
  {
  }

  lemma MoveBegins(t: Tree, from: Path, to: Path, ids: seq<string>, fail: nat)
    ensures MovesOn(MoveAll(t, from, to, ids, 0, fail), t, from, to, ids, 0, fail)
  {
    hide MoveAll;
  }

  // ----- Prune -----

  /** The entries that a prune at `cutoff` takes: active and past their time. */
  function Expired(t: Tree, cutoff: int): set<string> {
    set p | p in t && |p| == 3 && p[0] == TRASH && p[1] != PRUNE && p == ManifestOf(p[1])
      && t[p].File? && t[p].data.ManifestDoc? && !t[p].data.manifest.restored
      && t[p].data.manifest.expiresAt <= cutoff :: p[1]
  }

  predicate Distinct(ids: seq<string>) {
    forall i, j :: 0 <= i < j < |ids| ==> ids[i] != ids[j]
  }

  /** `ids` is what the preview listed, and the listing is still the same. */
  predicate CurrentPreview(t: Tree, ids: seq<string>, cutoff: int) {
    Distinct(ids) && (set i | 0 <= i < |ids| :: ids[i]) == Expired(t, cutoff)
  }

  function Pruned(t: Tree, ids: seq<string>, cutoff: int, batch: string, fail: nat, undoFails: set<string>): Outcome {
    if !CurrentPreview(t, ids, cutoff) then Outcome(t, false)
    else
      var made := if fail == 0 then None else MakeDirs(t, Quarantine(batch), false);
      if made.None? then Outcome(RemoveTree(t, Quarantine(batch)), false)
      else
        var p := MoveAll(made.value, Root(), Quarantine(batch), ids, 0, fail);
        var written := if p.ok && fail != |ids| + 1
                       then WriteDoc(p.tree, BatchOf(batch), BatchDoc(Batch(ids, false))) else None;
        if written.Some? then Outcome(written.value, true)
        else
          var back := MoveBack(p.tree, Root(), Quarantine(batch), ids, p.moved, undoFails);
          Outcome(RemoveTree(back, Quarantine(batch)), false)
  }

  // ----- Undo -----

  function AppliedBatch(t: Tree, batch: string): Option<Batch> {
    if BatchOf(batch) in t && t[BatchOf(batch)].File? && t[BatchOf(batch)].data.BatchDoc?
       && !t[BatchOf(batch)].data.batch.undone
    then Some(t[BatchOf(batch)].data.batch) else None
  }

  predicate AllMovable(t: Tree, from: Path, to: Path, ids: seq<string>) {
    forall i :: 0 <= i < |ids| ==> IsDir(t, from + [ids[i]]) && to + [ids[i]] !in t
  }

  function Undone(t: Tree, batch: string, fail: nat, undoFails: set<string>): Outcome {
    if !IsUuid(batch) || AppliedBatch(t, batch).None? then Outcome(t, false)
    else
      var doc := AppliedBatch(t, batch).value;
      if !AllMovable(t, Quarantine(batch), Root(), doc.ids) then Outcome(t, false)
      else
        var p := MoveAll(t, Quarantine(batch), Root(), doc.ids, 0, fail + 1);
        var written := if p.ok && fail != |doc.ids|
                       then WriteDoc(p.tree, BatchOf(batch), BatchDoc(doc.(undone := true))) else None;
        if written.Some? then Outcome(written.value, true)
        else Outcome(MoveBack(p.tree, Quarantine(batch), Root(), doc.ids, p.moved, undoFails), false)
  }

  // ----- The operations themselves -----

  class ProjectTrash {
    var tree: Tree

    constructor (initial: Tree)
      ensures tree == initial
    {
      tree := initial;
    }

    method DeletePath(target: Path, id: string, expiresAt: int, fail: nat, undoFails: bool) returns (ok: bool)
      modifies this
      ensures Outcome(tree, ok) == Deleted(old(tree), target, id, expiresAt, fail, undoFails)
    {
      var entry, content := EntryOf(id), ContentOf(id);
      ok := false;
      var made := if fail == 0 then None else MakeDirs(tree, entry, false);
      if made.Some? {
        tree := made.value;
        var renamed := if fail == 1 then None else Rename(tree, target, content);
        if renamed.Some? {
          tree := renamed.value;
          var written := if fail == 2 then None else WriteDoc(tree, ManifestOf(id), DeleteManifest(target, expiresAt));
          if written.Some? {
            tree := written.value;
            ok := true;
          }
        }
      }
      if !ok {
        if content in tree && target !in tree && !undoFails {
          var back := Rename(tree, content, target);
          if back.Some? {
            tree := back.value;
          }
        }
        tree := RemoveTree(tree, entry);
      }
    }

    method RestoreTrash(id: string, fail: nat) returns (ok: bool)
      modifies this
      ensures Outcome(tree, ok) == Restored(old(tree), id, fail)
    {
      if !IsUuid(id) || ActiveManifest(tree, id).None? {
        return false;
      }
      var manifest := ActiveManifest(tree, id).value;
      var destination := manifest.original;
      if destination == [] || destination in tree || !IsDir(tree, Parent(destination)) || ContentOf(id) !in tree {
        return false;
      }
      var renamed := if fail == 0 then None else Rename(tree, ContentOf(id), destination);
      if renamed.None? {
        return false;
      }
      tree := renamed.value;
      manifest := manifest.(restored := true);
      var written := if fail == 1 then None else WriteDoc(tree, ManifestOf(id), ManifestDoc(manifest));
      if written.None? {
        return false;
      }
      tree := written.value;
      ok := true;
    }

    /** The loop of renames, with the `moved` list; stops at the first failure. */
    method MoveEntries(from: Path, to: Path, ids: seq<string>, fail: nat) returns (moved: seq<string>, ok: bool)
      modifies this
      ensures Progress(tree, |moved|, ok) == MoveAll(old(tree), from, to, ids, 0, fail)
      ensures moved <= ids && (ok ==> moved == ids)
    {
      hide MoveAll, MovesOn, Rename;
      moved := [];
      ghost var goal := MoveAll(tree, from, to, ids, 0, fail);
      MoveBegins(tree, from, to, ids, fail);
      for i := 0 to |ids|
        invariant moved == ids[..i]
        invariant MovesOn(goal, tree, from, to, ids, i, fail)
      {
        MoveTurn(goal, tree, from, to, ids, i, fail);
        var renamed := if fail == i + 1 then None else Rename(tree, from + [ids[i]], to + [ids[i]]);
        if renamed.None? {
          return moved, false;
        }
        tree := renamed.value;
        moved := moved + [ids[i]];
      }
      MoveEnds(goal, tree, from, to, ids, fail);
      ok := true;
    }

    /** The compensating loop over the reversed `moved` list. */
    method MoveEntriesBack(from: Path, to: Path, moved: seq<string>, undoFails: set<string>)
      modifies this
      ensures tree == MoveBack(old(tree), from, to, moved, |moved|, undoFails)
    {
      for k := |moved| downto 0
        invariant MoveBack(old(tree), from, to, moved, |moved|, undoFails)
          == MoveBack(tree, from, to, moved, k, undoFails)
      {
        var id := moved[k];
        if to + [id] in tree && from + [id] !in tree && id !in undoFails {
          var back := Rename(tree, to + [id], from + [id]);
          if back.Some? {
            tree := back.value;
          }
        }
      }
    }

    method ApplyTrashPrune(ids: seq<string>, cutoff: int, batch: string, fail: nat, undoFails: set<string>)
      returns (ok: bool)
      modifies this
      ensures Outcome(tree, ok) == Pruned(old(tree), ids, cutoff, batch, fail, undoFails)
    {
      if !CurrentPreview(tree, ids, cutoff) {
        return false;
      }
      var quarantine := Quarantine(batch);
      var moved := [];
      ok := false;
      var made := if fail == 0 then None else MakeDirs(tree, quarantine, false);
      if made.Some? {
        tree := made.value;
        moved, ok := MoveEntries(Root(), quarantine, ids, fail);
        if ok {
          var doc := BatchDoc(Batch(moved, false));
          var written := if fail != |ids| + 1 then WriteDoc(tree, BatchOf(batch), doc) else None;
          ok := written.Some?;
          if ok {
            tree := written.value;
          }
        }
      }
      if !ok {
        MoveBackPrefix(tree, Root(), quarantine, ids, moved, undoFails);
        MoveEntriesBack(Root(), quarantine, moved, undoFails);
        tree := RemoveTree(tree, quarantine);
      }
    }

    method UndoTrashPrune(batch: string, fail: nat, undoFails: set<string>) returns (ok: bool)
      modifies this
      ensures Outcome(tree, ok) == Undone(old(tree), batch, fail, undoFails)
    {
      if !IsUuid(batch) || AppliedBatch(tree, batch).None? {
        return false;
      }
      var quarantine := Quarantine(batch);
      var doc := AppliedBatch(tree, batch).value;
      if !AllMovable(tree, quarantine, Root(), doc.ids) {
        return false;
      }
      var restored;
      restored, ok := MoveEntries(quarantine, Root(), doc.ids, fail + 1);
      if ok {
        var undone := BatchDoc(doc.(undone := true));
        var written := if fail != |doc.ids| then WriteDoc(tree, BatchOf(batch), undone) else None;
        ok := written.Some?;
        if ok {
          tree := written.value;
        }
      }
      if !ok {
        MoveBackPrefix(tree, quarantine, Root(), doc.ids, restored, undoFails);
        MoveEntriesBack(quarantine, Root(), restored, undoFails);
      }
    }
  }

  /** Moving back looks at the moved entries only. */
  lemma {:induction false} MoveBackPrefixAt(
      t: Tree, from: Path, to: Path, ids: seq<string>, moved: seq<string>, k: nat, undoFails: set<string>)
    requires moved <= ids && k <= |moved|
    ensures MoveBack(t, from, to, moved, k, undoFails) == MoveBack(t, from, to, ids, k, undoFails)
    decreases k
  {
    if k > 0 {
      var id := ids[k - 1];
      var back := if to + [id] in t && from + [id] !in t && id !in undoFails
                  then Rename(t, to + [id], from + [id]) else None;
      MoveBackPrefixAt(if back.Some? then back.value else t, from, to, ids, moved, k - 1, undoFails);
    }
  }

  lemma MoveBackPrefix(t: Tree, from: Path, to: Path, ids: seq<string>, moved: seq<string>, undoFails: set<string>)
    requires moved <= ids
    ensures MoveBack(t, from, to, moved, |moved|, undoFails) == MoveBack(t, from, to, ids, |moved|, undoFails)
  {
    MoveBackPrefixAt(t, from, to, ids, moved, |moved|, undoFails);
  }
}
