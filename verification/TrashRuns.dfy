/** Conservation over whole runs: whatever is deleted, restored, pruned and undone, with failures
    anywhere, each deleted subtree is in exactly one place, unchanged, until it is restored. Compensating
    renames are taken to succeed. */
module TrashRuns {
  import opened Options
  import opened FileTree
  import opened Trash
  import opened TrashSingle
  import opened TrashBatch

  /** What was deleted and from where, until when it is kept, whether it has been restored, and whether its entry
      is in the trash (no batch) or in the quarantine of a batch. */
  datatype Account = Account(content: Tree, original: Path, expiresAt: int, home: bool, batch: Option<string>)

  type Ledger = map<string, Account>

  datatype World = World(tree: Tree, ledger: Ledger)

  datatype Event =
    | Delete(target: Path, id: string, expiresAt: int, fail: nat)
    | Restore(id: string, fail: nat)
    | Prune(ids: seq<string>, cutoff: int, batch: string, fail: nat)
    | Undo(batch: string, fail: nat)
    | Outside(tree: Tree)

  function Quarantined(batch: string, id: string): Path { Quarantine(batch) + [id] }

  function Place(id: string, a: Account): Path {
    if a.batch.None? then EntryOf(id) else Quarantined(a.batch.value, id)
  }

  /** The accounts after some entries have gone into, or come out of, a batch. */
  function Rebatched(ledger: Ledger, ids: seq<string>, batch: Option<string>): Ledger {
    map id | id in ledger :: if id in ids then ledger[id].(batch := batch) else ledger[id]
  }

  function Outcome(w: World, e: Event): Trash.Outcome {
    match e
    case Delete(target, id, expiresAt, fail) => Deleted(w.tree, target, id, expiresAt, fail, false)
    case Restore(id, fail) => Restored(w.tree, id, fail)
    case Prune(ids, cutoff, batch, fail) => Pruned(w.tree, ids, cutoff, batch, fail, {})
    case Undo(batch, fail) => Undone(w.tree, batch, fail, {})
    case Outside(tree) => Trash.Outcome(tree, true)
  }

  function Next(w: World, e: Event): World {
    var out := Outcome(w, e);
    var ledger :=
      match e
      case Delete(target, id, expiresAt, _) =>
        if out.ok then w.ledger[id := Account(Subtree(w.tree, target), target, expiresAt, false, None)] else w.ledger
      case Restore(id, _) =>
        if id in w.ledger && ContentOf(id) in w.tree && ContentOf(id) !in out.tree
        then w.ledger[id := w.ledger[id].(home := true)] else w.ledger
      case Prune(ids, _, batch, _) => if out.ok then Rebatched(w.ledger, ids, Some(batch)) else w.ledger
      case Undo(batch, _) =>
        if out.ok then Rebatched(w.ledger, AppliedBatch(w.tree, batch).value.ids, None) else w.ledger
      case Outside(_) => w.ledger;
    World(out.tree, ledger)
  }

  /** What may happen next: deletes of existing paths under new ids, prunes into new batches, and any
      outside change that keeps off the trash. */
  ghost predicate Legal(w: World, e: Event) {
    match e
    case Delete(target, id, _, _) => LegalTarget(target) && target in w.tree && IsUuid(id) && id !in w.ledger
    case Restore(_, _) => true
    case Prune(_, _, batch, _) => Quarantine(batch) !in w.tree
    case Undo(_, _) => true
    case Outside(tree) => WellFormed(tree) && SameUnder(w.tree, tree, Root())
  }

  function AfterRun(w: World, events: seq<Event>): World
    decreases |events|
  {
    if events == [] then w else AfterRun(Next(w, events[0]), events[1..])
  }

  ghost predicate LegalRun(w: World, events: seq<Event>)
    decreases |events|
  {
    events == [] || (Legal(w, events[0]) && LegalRun(Next(w, events[0]), events[1..]))
  }

  // ----- The invariant -----

  ghost predicate ManifestOk(t: Tree, p: Path, a: Account) {
    && p in t && t[p].File? && t[p].data.ManifestDoc?
    && LegalTarget(a.original) && t[p].data.manifest.original == a.original
    && t[p].data.manifest.expiresAt == a.expiresAt
    && (t[p].data.manifest.restored ==> a.home)
  }

  /** A whole entry: its manifest, and its content unchanged, or restored. */
  ghost predicate EntryOk(t: Tree, place: Path, a: Account) {
    && IsDir(t, place) && ManifestOk(t, place + ["manifest.json"], a)
    && (if a.home then place + ["content"] !in t
        else place + ["content"] in t && Subtree(t, place + ["content"]) == a.content)
  }

  /** The entry is at its place and nowhere else. */
  ghost predicate Located(t: Tree, id: string, a: Account) {
    && EntryOk(t, Place(id, a), a)
    && (a.batch.Some? ==> EntryOf(id) !in t)
    && (forall b :: a.batch != Some(b) ==> Quarantined(b, id) !in t)
    && (a.batch.Some? ==>
          AppliedBatch(t, a.batch.value).Some? && id in AppliedBatch(t, a.batch.value).value.ids)
  }

  ghost predicate EntriesKnown(t: Tree, ledger: Ledger) {
    && (forall x :: EntryOf(x) in t ==> x == PRUNE || x in ledger)
    && (forall b, x :: Quarantined(b, x) in t ==> x == "batch.json" || x in ledger)
  }

  ghost predicate BatchesKnown(t: Tree, ledger: Ledger) {
    forall b :: AppliedBatch(t, b).Some? ==>
      var ids := AppliedBatch(t, b).value.ids;
      Distinct(ids) && forall i :: 0 <= i < |ids| ==> ids[i] in ledger
  }

  ghost predicate Accounted(w: World) {
    && WellFormed(w.tree)
    && (forall id :: id in w.ledger ==> IsUuid(id) && Located(w.tree, id, w.ledger[id]))
    && EntriesKnown(w.tree, w.ledger)
    && BatchesKnown(w.tree, w.ledger)
  }

  lemma UuidIsNoName(id: string)
    requires IsUuid(id)
    ensures id != PRUNE && id != "batch.json"
  {
  }

  // ----- Entries that move, and entries that stay -----

  /** An entry is as good at its new place as it was at the old one. */
  lemma EntryMoved(t: Tree, p: Path, t': Tree, p': Path, a: Account, b: Account)
    requires EntryOk(t, p, a) && b == a.(batch := b.batch)
    requires forall q :: p + q in t <==> p' + q in t'
    requires forall q :: p + q in t ==> t[p + q] == t'[p' + q]
    ensures EntryOk(t', p', b)
  {
    hide Subtree;
    assert p + [] == p && p' + [] == p';
    var content := ["content"];
    forall q
      ensures p + content + q in t <==> p' + content + q in t'
      ensures p + content + q in t ==> t[p + content + q] == t'[p' + content + q]
    {
      assert p + content + q == p + (content + q) && p' + content + q == p' + (content + q);
    }
    SubtreesEqual(t, p + content, t', p' + content);
  }

  /** Places that do not change keep their accounts. */
  lemma LocatedFrame(t: Tree, t': Tree, id: string, a: Account)
    requires Located(t, id, a)
    requires SameUnder(t, t', EntryOf(id)) && forall b :: SameUnder(t, t', Quarantined(b, id))
    requires a.batch.Some? ==> AppliedBatch(t, a.batch.value) == AppliedBatch(t', a.batch.value)
    ensures Located(t', id, a)
  {
    hide EntryOf, Quarantined, Quarantine, AppliedBatch, Subtree, EntryOk;
    var place := Place(id, a);
    assert SameUnder(t, t', place);
    forall q
      ensures place + q in t <==> place + q in t'
      ensures place + q in t ==> t[place + q] == t'[place + q]
    {
      assert place <= place + q;
      assert SameAt(t, t', place + q);
    }
    EntryMoved(t, place, t', place, a, a);
    assert EntryOf(id) <= EntryOf(id) && SameAt(t, t', EntryOf(id));
    forall b | a.batch != Some(b)
      ensures Quarantined(b, id) !in t'
    {
      assert Quarantined(b, id) <= Quarantined(b, id);
      assert SameAt(t, t', Quarantined(b, id));
    }
  }

  /** Nothing in the trash has changed but, perhaps, one entry. */
  ghost predicate KeptBut(t: Tree, t': Tree, id: string) {
    forall p :: Root() <= p && p != Root() && p != Root() + [PRUNE] && !(EntryOf(id) <= p) ==> SameAt(t, t', p)
  }

  lemma KeptUnder(t: Tree, t': Tree, changed: string, id: string)
    requires KeptBut(t, t', changed) && id != PRUNE && id != changed && changed != PRUNE
    ensures SameUnder(t, t', EntryOf(id)) && forall b :: SameUnder(t, t', Quarantined(b, id))
  {
    forall q | EntryOf(id) <= q
      ensures SameAt(t, t', q)
    {
      assert q[1] == id;
    }
    forall b, q | Quarantined(b, id) <= q
      ensures SameAt(t, t', q)
    {
      assert |q| >= 4 && q[0] == TRASH && q[1] == PRUNE;
    }
  }

  lemma KeptBatches(t: Tree, t': Tree, changed: string, b: string)
    requires KeptBut(t, t', changed) && changed != PRUNE
    ensures AppliedBatch(t, b) == AppliedBatch(t', b)
  {
    assert |BatchOf(b)| == 4 && BatchOf(b)[1] == PRUNE;
    assert SameAt(t, t', BatchOf(b));
  }

  /** If one entry has changed and has its account, every entry has. */
  lemma OneEntryChanged(w: World, t': Tree, id: string, a: Account)
    requires Accounted(w) && WellFormed(t') && IsUuid(id)
    requires KeptBut(w.tree, t', id) && Located(t', id, a)
    ensures Accounted(World(t', w.ledger[id := a]))
  {
    hide WellFormed, Subtree, Located, IsUuid, Distinct, KeptBut, AppliedBatch;
    UuidIsNoName(id);
    var w' := World(t', w.ledger[id := a]);
    forall x | EntryOf(x) in t'
      ensures x == PRUNE || x in w'.ledger
    {
      if x != PRUNE && x != id {
        EntryKept(w.tree, t', id, x);
      }
    }
    forall b, x | Quarantined(b, x) in t'
      ensures x == "batch.json" || x in w'.ledger
    {
      QuarantinedKept(w.tree, t', id, b, x);
    }
    forall b
      ensures AppliedBatch(w.tree, b) == AppliedBatch(t', b)
    {
      KeptBatches(w.tree, t', id, b);
    }
    forall x | x in w'.ledger
      ensures IsUuid(x) && Located(t', x, w'.ledger[x])
    {
      if x != id {
        UuidIsNoName(x);
        KeptUnder(w.tree, t', id, x);
        LocatedFrame(w.tree, t', x, w.ledger[x]);
      }
    }
  }

  lemma EntryKept(t: Tree, t': Tree, changed: string, x: string)
    requires KeptBut(t, t', changed) && x != PRUNE && x != changed
    ensures SameAt(t, t', EntryOf(x))
  {
    assert EntryOf(x)[1] == x && EntryOf(changed)[1] == changed;
  }

  lemma QuarantinedKept(t: Tree, t': Tree, changed: string, b: string, x: string)
    requires KeptBut(t, t', changed) && changed != PRUNE
    ensures SameAt(t, t', Quarantined(b, x))
  {
    assert |Quarantined(b, x)| == 4 && Quarantined(b, x)[1] == PRUNE;
  }

  /** If nothing in the trash has changed, every account stands. */
  lemma TrashKept(w: World, t': Tree)
    requires Accounted(w) && WellFormed(t')
    requires forall p :: Root() <= p && p != Root() && p != Root() + [PRUNE] ==> SameAt(w.tree, t', p)
    ensures Accounted(World(t', w.ledger))
  {
    hide WellFormed, Subtree, Located, IsUuid, Distinct, AppliedBatch;
    // No entry bears the empty name, so none has changed.
    NoName();
    forall x | EntryOf(x) in t'
      ensures x == PRUNE || x in w.ledger
    {
      if x != PRUNE {
        assert EntryOf(x)[1] == x;
        assert SameAt(w.tree, t', EntryOf(x));
      }
    }
    forall b, x | Quarantined(b, x) in t'
      ensures x == "batch.json" || x in w.ledger
    {
      QuarantinedKept(w.tree, t', "", b, x);
    }
    forall b
      ensures AppliedBatch(w.tree, b) == AppliedBatch(t', b)
    {
      KeptBatches(w.tree, t', "", b);
    }
    forall x | x in w.ledger
      ensures Located(t', x, w.ledger[x])
    {
      UuidIsNoName(x);
      KeptUnder(w.tree, t', "", x);
      LocatedFrame(w.tree, t', x, w.ledger[x]);
    }
  }

  lemma NoName()
    ensures "" != PRUNE && !IsUuid("")
  {
  }

  // ----- Delete -----

  lemma DeleteKeepsAccounted(w: World, e: Event)
    requires Accounted(w) && e.Delete? && Legal(w, e)
    ensures Accounted(Next(w, e))
  {
    hide WellFormed, Subtree, Located, IsUuid, AppliedBatch, Deleted, DeleteDone, Unchanged;
    UuidIsNoName(e.id);
    assert EntryOf(e.id) !in w.tree;
    DeleteIsAllOrNothing(w.tree, e.target, e.id, e.expiresAt, e.fail);
    var out := Deleted(w.tree, e.target, e.id, e.expiresAt, e.fail, false);
    if out.ok {
      assert forall b :: Quarantined(b, e.id) !in w.tree;
      DeletedIsLocated(w.tree, out.tree, e.target, e.id, e.expiresAt);
      OneEntryChanged(w, out.tree, e.id, Account(Subtree(w.tree, e.target), e.target, e.expiresAt, false, None));
    } else {
      UnchangedIsKept(w.tree, out.tree);
      TrashKept(w, out.tree);
    }
  }

  lemma UnchangedIsKept(t: Tree, t': Tree)
    requires Unchanged(t, t')
    ensures forall p :: Root() <= p && p != Root() && p != Root() + [PRUNE] ==> SameAt(t, t', p)
  {
  }

  lemma DeletedIsLocated(t: Tree, t': Tree, target: Path, id: string, expiresAt: int)
    requires LegalTarget(target) && IsUuid(id) && DeleteDone(t, t', target, id, expiresAt)
    requires forall b :: Quarantined(b, id) !in t
    ensures KeptBut(t, t', id) && Located(t', id, Account(Subtree(t, target), target, expiresAt, false, None))
  {
    hide Subtree, IsUuid;
    UuidIsNoName(id);
    forall p | Root() <= p && p != Root() && p != Root() + [PRUNE] && !(EntryOf(id) <= p)
      ensures SameAt(t, t', p)
    {
      assert p[0] == TRASH && target[0] != TRASH;
    }
    forall b
      ensures Quarantined(b, id) !in t'
    {
      QuarantinedKept(t, t', id, b, id);
    }
    assert EntryOf(id) + ["manifest.json"] == ManifestOf(id) && EntryOf(id) + ["content"] == ContentOf(id);
  }

  // ----- Restore -----

  lemma RestoreKeepsAccounted(w: World, e: Event)
    requires Accounted(w) && e.Restore?
    ensures Accounted(Next(w, e))
    ensures var out := Outcome(w, e);
      e.id in w.ledger && ContentOf(e.id) in w.tree && ContentOf(e.id) !in out.tree ==>
        Subtree(out.tree, w.ledger[e.id].original) == w.ledger[e.id].content
  {
    hide WellFormed, Subtree, IsUuid, AppliedBatch, Restored, Located, ActiveManifest;
    var t, id := w.tree, e.id;
    if IsUuid(id) && ActiveManifest(t, id).Some? {
      ActiveIsAccounted(w, id);
      RestoreMovesOrRefuses(t, id, e.fail);
      var out := Restored(t, id, e.fail);
      if Restorable(t, id) && e.fail != 0 {
        var a := w.ledger[id];
        RestoredIsLocated(t, out.tree, id, a, out.ok);
        OneEntryChanged(w, out.tree, id, a.(home := true));
      }
    } else {
      RestoreRefused(t, id, e.fail);
    }
  }

  lemma RestoreRefused(t: Tree, id: string, fail: nat)
    requires !IsUuid(id) || ActiveManifest(t, id).None?
    ensures Restored(t, id, fail) == Trash.Outcome(t, false)
  {
  }

  lemma ActiveIsAccounted(w: World, id: string)
    requires Accounted(w) && IsUuid(id) && ActiveManifest(w.tree, id).Some?
    ensures id in w.ledger && w.ledger[id].batch.None? && LegalTarget(w.ledger[id].original)
    ensures ActiveManifest(w.tree, id).value.original == w.ledger[id].original
    ensures ActiveManifest(w.tree, id).value.expiresAt == w.ledger[id].expiresAt
  {
    hide WellFormed, Subtree, IsUuid, AppliedBatch;
    UuidIsNoName(id);
    assert EntryOf(id) in w.tree;
    assert Located(w.tree, id, w.ledger[id]);
    assert EntryOf(id) + ["manifest.json"] == ManifestOf(id);
  }

  lemma RestoredIsLocated(t: Tree, t': Tree, id: string, a: Account, ok: bool)
    requires Located(t, id, a) && a.batch.None? && IsUuid(id)
    requires ActiveManifest(t, id).Some? && ContentOf(id) in t
    requires ActiveManifest(t, id).value.original == a.original && LegalTarget(a.original)
    requires ActiveManifest(t, id).value.expiresAt == a.expiresAt
    requires RestoreMoved(t, t', id, a.original) && HasManifest(t', id, ActiveManifest(t, id).value.(restored := ok))
    ensures KeptBut(t, t', id) && Located(t', id, a.(home := true))
    ensures ContentOf(id) !in t' && Subtree(t', a.original) == a.content
  {
    hide Subtree, IsUuid, AppliedBatch;
    UuidIsNoName(id);
    EntryPaths(id);
    assert EntryOf(id) + ["manifest.json"] == ManifestOf(id) && EntryOf(id) + ["content"] == ContentOf(id);
    forall p | Root() <= p && p != ManifestOf(id) && !(ContentOf(id) <= p)
      ensures SameAt(t, t', p)
    {
      assert p[0] == TRASH && a.original[0] != TRASH;
    }
    forall b
      ensures Quarantined(b, id) !in t'
    {
      QuarantinedKept(t, t', id, b, id);
    }
    assert SameAt(t, t', EntryOf(id));
    assert ContentOf(id) <= ContentOf(id);
  }

  // ----- Prune -----

  /** A prune takes active entries, so it takes accounted ones. */
  lemma PreviewIsAccounted(w: World, ids: seq<string>, cutoff: int, k: nat)
    requires Accounted(w) && CurrentPreview(w.tree, ids, cutoff) && k < |ids|
    ensures ids[k] in w.ledger && IsUuid(ids[k]) && w.ledger[ids[k]].batch.None?
    ensures ids[k] != PRUNE && ids[k] != "batch.json"
  {
    hide WellFormed, Subtree, IsUuid, AppliedBatch, CurrentPreview;
    InPreview(w.tree, ids, cutoff, k);
    assert EntryOf(ids[k]) in w.tree;
    UuidIsNoName(ids[k]);
    assert Located(w.tree, ids[k], w.ledger[ids[k]]);
  }

  lemma PruneKeepsAccounted(w: World, e: Event)
    requires Accounted(w) && e.Prune? && Legal(w, e)
    ensures Accounted(Next(w, e))
  {
    hide WellFormed, Subtree, Located, IsUuid, AppliedBatch, Pruned, PruneDone, CurrentPreview, Distinct,
         EntriesUnchanged, MakeDirs;
    var t := w.tree;
    PruneNeedsPreview(t, e.ids, e.cutoff, e.batch, e.fail);
    if CurrentPreview(t, e.ids, e.cutoff) {
      forall k | 0 <= k < |e.ids|
        ensures e.ids[k] in w.ledger && w.ledger[e.ids[k]].batch.None? && IsUuid(e.ids[k])
        ensures e.ids[k] != PRUNE && e.ids[k] != "batch.json"
      {
        PreviewIsAccounted(w, e.ids, e.cutoff, k);
      }
      PruneIsAllOrNothing(t, e.ids, e.cutoff, e.batch, e.fail);
      var out := Pruned(t, e.ids, e.cutoff, e.batch, e.fail, {});
      if out.ok {
        DistinctPreview(t, e.ids, e.cutoff);
        PrunedIsAccounted(w, out.tree, e.ids, e.batch);
      } else {
        EntriesUnchangedIsKept(t, out.tree);
        TrashKept(w, out.tree);
      }
    }
  }

  lemma PruneNeedsPreview(t: Tree, ids: seq<string>, cutoff: int, batch: string, fail: nat)
    ensures !CurrentPreview(t, ids, cutoff) ==> Pruned(t, ids, cutoff, batch, fail, {}) == Trash.Outcome(t, false)
  {
    hide CurrentPreview, MakeDirs, MoveAll, MoveBack, WriteDoc, RemoveTree;
  }

  lemma DistinctPreview(t: Tree, ids: seq<string>, cutoff: int)
    requires CurrentPreview(t, ids, cutoff)
    ensures Distinct(ids)
  {
  }

  lemma EntriesUnchangedIsKept(t: Tree, t': Tree)
    requires EntriesUnchanged(t, t')
    ensures forall p :: Root() <= p && p != Root() && p != Root() + [PRUNE] ==> SameAt(t, t', p)
  {
  }

  lemma PrunedIsAccounted(w: World, t': Tree, ids: seq<string>, batch: string)
    requires Accounted(w) && WellFormed(t') && Quarantine(batch) !in w.tree && Distinct(ids)
    requires forall k :: 0 <= k < |ids| ==>
      ids[k] in w.ledger && w.ledger[ids[k]].batch.None? && IsUuid(ids[k]) && ids[k] != PRUNE && ids[k] != "batch.json"
    requires PruneDone(w.tree, t', ids, batch)
    ensures Accounted(World(t', Rebatched(w.ledger, ids, Some(batch))))
  {
    hide WellFormed, Subtree, Located, IsUuid, AppliedBatch, PruneDone, Distinct;
    var ledger' := Rebatched(w.ledger, ids, Some(batch));
    NoBatchBefore(w.tree, batch);
    forall b
      ensures AppliedBatch(t', b) == if b == batch then Some(Batch(ids, false)) else AppliedBatch(w.tree, b)
    {
      PrunedBatches(w.tree, t', ids, batch, b);
    }
    forall x | EntryOf(x) in t'
      ensures x == PRUNE || x in ledger'
    {
      if x != PRUNE {
        PrunedEntry(w.tree, t', ids, batch, x);
      }
    }
    forall b, x | Quarantined(b, x) in t'
      ensures x == "batch.json" || x in ledger'
    {
      if x != "batch.json" {
        PrunedQuarantined(w.tree, t', ids, batch, b, x);
      }
    }
    forall id | id in ledger'
      ensures IsUuid(id) && Located(t', id, ledger'[id])
    {
      assert Located(w.tree, id, w.ledger[id]);
      UuidIsNoName(id);
      if id in ids {
        PrunedIsLocated(w.tree, t', ids, batch, id, w.ledger[id]);
      } else {
        LeftByPrune(w.tree, t', ids, batch, id);
        BatchIsOld(w.tree, batch, id, w.ledger[id]);
        LocatedFrame(w.tree, t', id, w.ledger[id]);
      }
    }
  }

  lemma NoBatchBefore(t: Tree, batch: string)
    requires WellFormed(t) && Quarantine(batch) !in t
    ensures AppliedBatch(t, batch) == None
  {
    PrunePaths(batch);
    AbsentUnderMissing(t, Quarantine(batch));
  }

  lemma BatchIsOld(t: Tree, batch: string, id: string, a: Account)
    requires AppliedBatch(t, batch).None? && Located(t, id, a)
    ensures a.batch != Some(batch)
  {
    hide AppliedBatch, EntryOk;
  }

  lemma PrunedBatches(t: Tree, t': Tree, ids: seq<string>, batch: string, b: string)
    requires PruneDone(t, t', ids, batch) && PRUNE !in ids
    ensures AppliedBatch(t', b) == if b == batch then Some(Batch(ids, false)) else AppliedBatch(t, b)
  {
    if b != batch {
      var p := BatchOf(b);
      assert |p| == 4 && p[1] == PRUNE && p[2] == b;
      assert Quarantine(batch)[2] == batch && BatchOf(batch)[2] == batch;
      assert MovedSetAt(t, t', Root(), Quarantine(batch), ids, p);
    }
  }

  lemma PrunedEntry(t: Tree, t': Tree, ids: seq<string>, batch: string, x: string)
    requires PruneDone(t, t', ids, batch) && x != PRUNE
    ensures if x in ids then EntryOf(x) !in t' else SameAt(t, t', EntryOf(x))
  {
    var p := EntryOf(x);
    assert |p| == 2 && p[1] == x;
    assert MovedSetAt(t, t', Root(), Quarantine(batch), ids, p);
  }

  lemma PrunedQuarantined(t: Tree, t': Tree, ids: seq<string>, batch: string, b: string, x: string)
    requires PruneDone(t, t', ids, batch) && PRUNE !in ids && x != "batch.json"
    ensures !(b == batch && x in ids) ==> SameAt(t, t', Quarantined(b, x))
  {
    var p := Quarantined(b, x);
    assert |p| == 4 && p[1] == PRUNE && p[2] == b && p[3] == x;
    assert BatchOf(batch)[3] == "batch.json";
    assert MovedSetAt(t, t', Root(), Quarantine(batch), ids, p);
  }

  lemma LeftByPrune(t: Tree, t': Tree, ids: seq<string>, batch: string, id: string)
    requires PruneDone(t, t', ids, batch) && PRUNE !in ids && id !in ids && id != PRUNE && id != "batch.json"
    ensures SameUnder(t, t', EntryOf(id)) && forall b :: SameUnder(t, t', Quarantined(b, id))
  {
    forall q | EntryOf(id) <= q
      ensures SameAt(t, t', q)
    {
      assert |q| >= 2 && q[1] == id;
      assert MovedSetAt(t, t', Root(), Quarantine(batch), ids, q);
    }
    forall b, q | Quarantined(b, id) <= q
      ensures SameAt(t, t', q)
    {
      assert |q| >= 4 && q[1] == PRUNE && q[3] == id;
      assert BatchOf(batch)[3] == "batch.json";
      assert MovedSetAt(t, t', Root(), Quarantine(batch), ids, q);
    }
  }

  lemma PrunedIsLocated(t: Tree, t': Tree, ids: seq<string>, batch: string, id: string, a: Account)
    requires PruneDone(t, t', ids, batch) && PRUNE !in ids && "batch.json" !in ids && id in ids
    requires Located(t, id, a) && a.batch.None?
    ensures Located(t', id, a.(batch := Some(batch)))
  {
    hide Subtree, EntryOk, AppliedBatch;
    var from, to := EntryOf(id), Quarantined(batch, id);
    forall q
      ensures from + q in t <==> to + q in t'
      ensures from + q in t ==> t[from + q] == t'[to + q]
    {
      var p := to + q;
      assert |p| >= 4 && p[3] == id && Quarantine(batch) <= p;
      assert InSet(p, Quarantine(batch), ids) && Rebased(p, Quarantine(batch), Root()) == from + q;
      assert BatchOf(batch)[3] == "batch.json";
      assert MovedSetAt(t, t', Root(), Quarantine(batch), ids, p);
    }
    EntryMoved(t, from, t', to, a, a.(batch := Some(batch)));
    PrunedEntry(t, t', ids, batch, id);
    forall b | b != batch
      ensures Quarantined(b, id) !in t'
    {
      PrunedQuarantined(t, t', ids, batch, b, id);
    }
    PrunedBatches(t, t', ids, batch, batch);
  }

  // ----- Undo -----

  lemma UndoKeepsAccounted(w: World, e: Event)
    requires Accounted(w) && e.Undo?
    ensures Accounted(Next(w, e))
  {
    hide WellFormed, Subtree, Located, IsUuid, AppliedBatch, Undone, UndoDone, Distinct, AllMovable;
    var t := w.tree;
    if IsUuid(e.batch) && AppliedBatch(t, e.batch).Some? {
      var ids := AppliedBatch(t, e.batch).value.ids;
      forall k | 0 <= k < |ids|
        ensures ids[k] in w.ledger && ids[k] != PRUNE && ids[k] != "batch.json"
      {
        UuidIsNoName(ids[k]);
      }
      UndoIsAllOrNothing(t, e.batch, e.fail);
      var out := Undone(t, e.batch, e.fail, {});
      if out.ok {
        UndoneIsAccounted(w, out.tree, ids, e.batch);
      }
    } else {
      UndoRefused(t, e.batch, e.fail);
    }
  }

  lemma UndoRefused(t: Tree, batch: string, fail: nat)
    requires !IsUuid(batch) || AppliedBatch(t, batch).None?
    ensures Undone(t, batch, fail, {}) == Trash.Outcome(t, false)
  {
  }

  lemma UndoneIsAccounted(w: World, t': Tree, ids: seq<string>, batch: string)
    requires Accounted(w) && WellFormed(t')
    requires AppliedBatch(w.tree, batch).Some? && AppliedBatch(w.tree, batch).value.ids == ids
    requires AllMovable(w.tree, Quarantine(batch), Root(), ids) && PRUNE !in ids && "batch.json" !in ids
    requires UndoDone(w.tree, t', ids, batch)
    ensures Accounted(World(t', Rebatched(w.ledger, ids, None)))
  {
    hide WellFormed, Subtree, Located, IsUuid, AppliedBatch, UndoDone, Distinct, AllMovable;
    var ledger' := Rebatched(w.ledger, ids, None);
    forall b
      ensures AppliedBatch(t', b) == if b == batch then None else AppliedBatch(w.tree, b)
    {
      UndoneBatches(w.tree, t', ids, batch, b);
    }
    forall x | EntryOf(x) in t'
      ensures x == PRUNE || x in ledger'
    {
      UndoneEntry(w.tree, t', ids, batch, x);
    }
    forall b, x | Quarantined(b, x) in t'
      ensures x == "batch.json" || x in ledger'
    {
      if x != "batch.json" {
        UndoneQuarantined(w.tree, t', ids, batch, b, x);
      }
    }
    forall id | id in ledger'
      ensures IsUuid(id) && Located(t', id, ledger'[id])
    {
      assert Located(w.tree, id, w.ledger[id]);
      UuidIsNoName(id);
      if id in ids {
        MovableIsInBatch(w.tree, ids, batch, id, w.ledger[id]);
        UndoneIsLocated(w.tree, t', ids, batch, id, w.ledger[id]);
      } else {
        LeftByUndo(w.tree, t', ids, batch, id);
        NotInBatch(w.tree, batch, id, w.ledger[id]);
        LocatedFrame(w.tree, t', id, w.ledger[id]);
      }
    }
  }

  lemma MovableIsInBatch(t: Tree, ids: seq<string>, batch: string, id: string, a: Account)
    requires AllMovable(t, Quarantine(batch), Root(), ids) && id in ids && Located(t, id, a)
    ensures a.batch == Some(batch)
  {
    hide AppliedBatch, EntryOk;
    assert Quarantined(batch, id) in t;
  }

  lemma NotInBatch(t: Tree, batch: string, id: string, a: Account)
    requires AppliedBatch(t, batch).Some? && id !in AppliedBatch(t, batch).value.ids && Located(t, id, a)
    ensures a.batch != Some(batch)
  {
    hide AppliedBatch, EntryOk;
  }

  lemma UndoneBatches(t: Tree, t': Tree, ids: seq<string>, batch: string, b: string)
    requires UndoDone(t, t', ids, batch) && PRUNE !in ids && "batch.json" !in ids
    ensures AppliedBatch(t', b) == if b == batch then None else AppliedBatch(t, b)
  {
    if b != batch {
      var p := BatchOf(b);
      assert |p| == 4 && p[1] == PRUNE && p[2] == b && BatchOf(batch)[2] == batch;
      assert MovedSetAt(t, t', Quarantine(batch), Root(), ids, p);
    }
  }

  lemma UndoneEntry(t: Tree, t': Tree, ids: seq<string>, batch: string, x: string)
    requires UndoDone(t, t', ids, batch)
    ensures x !in ids ==> SameAt(t, t', EntryOf(x))
  {
    var p := EntryOf(x);
    assert |p| == 2 && p[1] == x;
    assert MovedSetAt(t, t', Quarantine(batch), Root(), ids, p);
  }

  lemma UndoneQuarantined(t: Tree, t': Tree, ids: seq<string>, batch: string, b: string, x: string)
    requires UndoDone(t, t', ids, batch) && PRUNE !in ids && x != "batch.json"
    ensures if b == batch && x in ids then Quarantined(b, x) !in t' else SameAt(t, t', Quarantined(b, x))
  {
    var p := Quarantined(b, x);
    assert |p| == 4 && p[1] == PRUNE && p[2] == b && p[3] == x;
    assert BatchOf(batch)[3] == "batch.json";
    assert MovedSetAt(t, t', Quarantine(batch), Root(), ids, p);
  }

  lemma LeftByUndo(t: Tree, t': Tree, ids: seq<string>, batch: string, id: string)
    requires UndoDone(t, t', ids, batch) && PRUNE !in ids && id !in ids && id != PRUNE && id != "batch.json"
    ensures SameUnder(t, t', EntryOf(id)) && forall b :: SameUnder(t, t', Quarantined(b, id))
  {
    forall q | EntryOf(id) <= q
      ensures SameAt(t, t', q)
    {
      assert |q| >= 2 && q[1] == id;
      assert MovedSetAt(t, t', Quarantine(batch), Root(), ids, q);
    }
    forall b, q | Quarantined(b, id) <= q
      ensures SameAt(t, t', q)
    {
      assert |q| >= 4 && q[1] == PRUNE && q[3] == id;
      assert BatchOf(batch)[3] == "batch.json";
      assert MovedSetAt(t, t', Quarantine(batch), Root(), ids, q);
    }
  }

  lemma UndoneIsLocated(t: Tree, t': Tree, ids: seq<string>, batch: string, id: string, a: Account)
    requires UndoDone(t, t', ids, batch) && PRUNE !in ids && "batch.json" !in ids && id in ids
    requires Located(t, id, a) && a.batch == Some(batch)
    ensures Located(t', id, a.(batch := None))
  {
    hide Subtree, EntryOk, AppliedBatch;
    var from, to := Quarantined(batch, id), EntryOf(id);
    forall q
      ensures from + q in t <==> to + q in t'
      ensures from + q in t ==> t[from + q] == t'[to + q]
    {
      var p := to + q;
      assert |p| >= 2 && p[1] == id && Root() <= p;
      assert InSet(p, Root(), ids) && Rebased(p, Root(), Quarantine(batch)) == from + q;
      assert BatchOf(batch)[1] == PRUNE;
      assert MovedSetAt(t, t', Quarantine(batch), Root(), ids, p);
    }
    EntryMoved(t, from, t', to, a, a.(batch := None));
    forall b
      ensures Quarantined(b, id) !in t'
    {
      UndoneQuarantined(t, t', ids, batch, b, id);
    }
  }

  // ----- Whole runs -----

  lemma EventKeepsAccounted(w: World, e: Event)
    requires Accounted(w) && Legal(w, e)
    ensures Accounted(Next(w, e))
  {
    hide Accounted, Subtree, Deleted, Restored, Pruned, Undone, AppliedBatch;
    match e
    case Delete(_, _, _, _) => DeleteKeepsAccounted(w, e);
    case Restore(_, _) => RestoreKeepsAccounted(w, e);
    case Prune(_, _, _, _) => PruneKeepsAccounted(w, e);
    case Undo(_, _) => UndoKeepsAccounted(w, e);
    case Outside(tree) => OutsideKeepsAccounted(w, tree);
  }

  lemma OutsideKeepsAccounted(w: World, tree: Tree)
    requires Accounted(w) && WellFormed(tree) && SameUnder(w.tree, tree, Root())
    ensures Accounted(World(tree, w.ledger))
  {
    hide Accounted, WellFormed;
    TrashKept(w, tree);
  }

  lemma {:induction false} RunKeepsAccounted(w: World, events: seq<Event>)
    requires Accounted(w) && LegalRun(w, events)
    ensures Accounted(AfterRun(w, events))
    decreases |events|
  {
    hide Accounted, Legal, Next;
    if events != [] {
      EventKeepsAccounted(w, events[0]);
      RunKeepsAccounted(Next(w, events[0]), events[1..]);
    }
  }

  /** What the accounts say was deleted never changes, and what has been restored stays so. */
  lemma {:induction false} AccountsNeverChange(w: World, events: seq<Event>, id: string)
    requires LegalRun(w, events) && id in w.ledger
    ensures var a, b := w.ledger[id], AfterRun(w, events).ledger;
      id in b && b[id].content == a.content && b[id].original == a.original && (a.home ==> b[id].home)
      && b[id].expiresAt == a.expiresAt
    decreases |events|
  {
    hide Deleted, Restored, Pruned, Undone, AppliedBatch, Subtree, IsUuid;
    if events != [] {
      AccountsNeverChange(Next(w, events[0]), events[1..], id);
    }
  }

  // ----- When an entry is pruned -----

  /** An accepted prune takes an entry out of the trash only if its time has come; and what has not been restored
      it does take then. */
  lemma PruneTakesWhenDue(w: World, e: Event, id: string)
    requires Accounted(w) && e.Prune? && Legal(w, e) && id in w.ledger && w.ledger[id].batch.None?
    requires Outcome(w, e).ok
    ensures var a, taken := w.ledger[id], [".agent-pbx-trash", id] !in Outcome(w, e).tree;
      && (taken ==> a.expiresAt <= e.cutoff)
      && (!a.home && a.expiresAt <= e.cutoff ==> taken)
      && (taken <==> Next(w, e).ledger[id].batch == Some(e.batch))
  {
    hide WellFormed, Subtree, IsUuid, AppliedBatch, Pruned, CurrentPreview, PruneDone, ListsDue, Due, PruneUsable;
    UuidIsNoName(id);
    PreviewHasNoBatchFile(w, e);
    PruneMovesDue(w.tree, e.ids, e.cutoff, e.batch, e.fail);
    assert Located(w.tree, id, w.ledger[id]);
    ManifestSays(w.tree, id, w.ledger[id], e.cutoff);
    ListedIfDue(w.tree, e.ids, e.cutoff, id);
  }

  lemma PreviewHasNoBatchFile(w: World, e: Event)
    requires Accounted(w) && e.Prune? && Outcome(w, e).ok
    ensures "batch.json" !in e.ids
  {
    hide WellFormed, Subtree, IsUuid, AppliedBatch, Pruned, CurrentPreview, Accounted;
    PruneNeedsPreview(w.tree, e.ids, e.cutoff, e.batch, e.fail);
    forall k | 0 <= k < |e.ids|
      ensures e.ids[k] != "batch.json"
    {
      PreviewIsAccounted(w, e.ids, e.cutoff, k);
    }
  }

  lemma ManifestSays(t: Tree, id: string, a: Account, cutoff: int)
    requires EntryOk(t, EntryOf(id), a)
    ensures [".agent-pbx-trash", id] in t
    ensures Due(t, id, cutoff) ==> a.expiresAt <= cutoff
    ensures !a.home && a.expiresAt <= cutoff ==> Due(t, id, cutoff)
  {
    assert EntryOf(id) + ["manifest.json"] == [".agent-pbx-trash", id, "manifest.json"];
  }

  lemma ListedIfDue(t: Tree, ids: seq<string>, cutoff: int, id: string)
    requires ListsDue(t, ids, cutoff) && id != ".prune"
    ensures id in ids <==> Due(t, id, cutoff)
  {
  }

  /** Every prune of the run is before the time of the entry. */
  predicate PrunesBefore(events: seq<Event>, expiresAt: int) {
    forall i :: 0 <= i < |events| && events[i].Prune? ==> events[i].cutoff < expiresAt
  }

  /** So an entry stays in the trash over any run whose prunes are all before its time. */
  lemma {:induction false} StaysUntilDue(w: World, events: seq<Event>, id: string)
    requires Accounted(w) && LegalRun(w, events) && id in w.ledger && w.ledger[id].batch.None?
    requires PrunesBefore(events, w.ledger[id].expiresAt)
    ensures var after := AfterRun(w, events); id in after.ledger && after.ledger[id].batch.None?
    decreases |events|
  {
    hide Accounted, Legal, Next;
    if events != [] {
      EventKeepsAccounted(w, events[0]);
      EventLeavesEntry(w, events[0], id);
      assert forall i :: 0 <= i < |events[1..]| ==> events[1..][i] == events[i + 1];
      StaysUntilDue(Next(w, events[0]), events[1..], id);
    }
  }

  lemma EventLeavesEntry(w: World, e: Event, id: string)
    requires Accounted(w) && Legal(w, e) && id in w.ledger && w.ledger[id].batch.None?
    requires e.Prune? ==> e.cutoff < w.ledger[id].expiresAt
    ensures var after := Next(w, e).ledger;
      id in after && after[id].batch.None? && after[id].expiresAt == w.ledger[id].expiresAt
  {
    hide Accounted, Deleted, Restored, Pruned, Undone, AppliedBatch, Subtree, IsUuid;
    if e.Prune? && Outcome(w, e).ok {
      PruneTakesWhenDue(w, e, id);
    }
  }

  /** The main result. Start with no trash at all and let any run of deletes, restores, prunes, undos
      and outside changes happen, with a failure at any call. Every entry ever made is in exactly one
      place, the trash or the quarantine of one batch, and it holds what was deleted, unchanged, until
      that has been restored. */
  lemma NothingTrashedIsLost(tree: Tree, events: seq<Event>, id: string)
    requires WellFormed(tree) && Root() !in tree && LegalRun(World(tree, map[]), events)
    requires id in AfterRun(World(tree, map[]), events).ledger
    ensures var w := AfterRun(World(tree, map[]), events); var a := w.ledger[id]; var place := Place(id, a);
      && (forall p :: p in w.tree && (p == EntryOf(id) || exists b :: p == Quarantined(b, id)) <==> p == place)
      && (if a.home then place + ["content"] !in w.tree
          else place + ["content"] in w.tree && Subtree(w.tree, place + ["content"]) == a.content)
  {
    hide LegalRun, AfterRun, Subtree, IsUuid, AppliedBatch;
    NoTrashIsAccounted(tree);
    RunKeepsAccounted(World(tree, map[]), events);
    var w := AfterRun(World(tree, map[]), events);
    assert Located(w.tree, id, w.ledger[id]);
  }

  lemma NoTrashIsAccounted(tree: Tree)
    requires WellFormed(tree) && Root() !in tree
    ensures Accounted(World(tree, map[]))
  {
    AbsentUnderMissing(tree, Root());
    forall b
      ensures AppliedBatch(tree, b) == None
    {
      assert Root() <= BatchOf(b);
    }
    assert forall b, x :: Root() <= Quarantined(b, x);
    assert forall x :: Root() <= EntryOf(x);
  }

  /** What an account records is what was there when it was deleted, and where. */
  lemma AccountIsOpenedByDelete(w: World, e: Event, id: string)
    requires id !in w.ledger && id in Next(w, e).ledger
    ensures e.Delete? && e.id == id && Outcome(w, e).ok
    ensures Next(w, e).ledger[id] == Account(Subtree(w.tree, e.target), e.target, e.expiresAt, false, None)
  {
    hide Deleted, Restored, Pruned, Undone, AppliedBatch, Subtree, IsUuid;
  }
}
