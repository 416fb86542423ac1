/** One deletion, from its lease to its last cleanup effect. */
module DeleteOperation {
  import opened DeleteWorld
  import opened LibraryDelete
  import opened DeleteBatch
  import opened Wrappers

  datatype Reason =
    | EmptyBatch
    | KeyClash(key: Key)
    | LeaseDenied
    | NotStaged(restored: bool)
    | NotRecorded(restored: bool)
    | NotCommitted(restored: bool)

  datatype DeleteResult =
    | Deleted(revision: nat, cleanupComplete: bool)
    | Rejected(reason: Reason)
    | Died

  /* ------------------------------ staging ------------------------------ */

  /** A directory that `op` holds in its trash once it has moved the keys `moved`. */
  ghost predicate Away(w: World, op: OpId, moved: set<Key>, s: Slot) {
    s.op == op && s.key in moved && s.key in w.source
  }

  /** `v` is `w` with the directories of `moved` in the trash of `op`, and markers for `marked`. */
  ghost predicate Placed(w: World, v: World, op: OpId, moved: set<Key>, marked: set<Key>) {
    && v.rows == w.rows && v.revision == w.revision && v.leases == w.leases && v.intents == w.intents
    && (forall k :: k in v.source <==> k in w.source && k !in moved)
    && (forall k | k in v.source :: v.source[k] == w.source[k])
    && (forall s :: s in v.trash <==> s in w.trash || Away(w, op, moved, s))
    && (forall s | s in v.trash :: v.trash[s] == if s in w.trash then w.trash[s] else w.source[s.key])
    && (forall s :: s in v.markers <==> s in w.markers || (s.op == op && s.key in marked))
  }

  /** Operation `op` has not touched the disk and has committed nothing. */
  ghost predicate Unplaced(w: World, op: OpId) {
    && (forall s | s in w.trash || s in w.markers :: s.op != op)
    && (forall s <- w.intents | s.op == op :: w.intents[s] == Staged)
  }

  /** The directories of `moved` that nothing on the disk tells recovery of. */
  function Missing(w: World, moved: set<Key>, marked: set<Key>): set<Key> {
    set k | k in moved && k in w.source && k !in marked
  }

  /** Of those, the ones that no intent tells of either. */
  function Unrecorded(w: World, op: OpId, moved: set<Key>, marked: set<Key>): set<Key> {
    set k | k in Missing(w, moved, marked) && Slot(op, k) !in w.intents
  }

  /** Recovery brings `v` to what it makes of `w`, less the rows of `rows` and the directories of `dirs`
    * that were at their source; a revision is spent only if a row went. */
  ghost predicate Taken(w: World, v: World, rows: set<Key>, dirs: set<Key>) {
    && Sound(v)
    && (Placeable(w) ==> Placeable(v))
    && (Uniform(w) ==> Uniform(v))
    && (Placeable(w) || dirs == {} ==>
         forall k, d :: Home(v, k, d) <==> Home(w, k, d) && !(k in dirs && k in w.source))
    && v.rows == w.rows - rows
    && v.revision == (if w.rows.Keys !! rows then w.revision else w.revision + 1)
    && UploadLeases(w.leases) == UploadLeases(v.leases)
  }

  /** The directories of `dirs` lie whole in the trash of `op`, where recovery does not know of them, and no
    * others have come there. */
  ghost predicate Astray(w: World, v: World, op: OpId, dirs: set<Key>) {
    && (forall s :: Stray(v, s) <==> Stray(w, s) || (s.op == op && s.key in dirs && s.key in w.source))
    && (forall s | Stray(w, s) && Stray(v, s) :: v.trash[s] == w.trash[s])
    && (forall k | k in dirs && k in w.source && Slot(op, k) in v.trash :: v.trash[Slot(op, k)] == w.source[k])
  }

  /** Exactly the directories of `dirs` are lost to recovery; everything else keeps its fate. */
  ghost predicate Strayed(w: World, v: World, op: OpId, dirs: set<Key>) {
    Taken(w, v, {}, dirs) && Astray(w, v, op, dirs)
  }

  lemma NothingStrayed(w: World, v: World, op: OpId)
    requires Strayed(w, v, op, {})
    ensures Kept(w, v)
  {
  }

  /** Moving directories into the trash and back is harmless at every point, except for those that are away
    * without a record: they are lost to recovery, and nothing else is. */
  lemma PlacedKeepsFate(w: World, v: World, op: OpId, moved: set<Key>, marked: set<Key>)
    requires Sound(w) && Unplaced(w, op) && Placed(w, v, op, moved, marked)
    ensures Strayed(w, v, op, Unrecorded(w, op, moved, marked))
    ensures Unrecorded(w, op, moved, marked) == {} ==> Kept(w, v)
  {
    PlacedHomes(w, v, op, moved, marked);
    PlacedStrays(w, v, op, moved, marked);
    if Unrecorded(w, op, moved, marked) == {} {
      NothingStrayed(w, v, op);
    }
  }

  lemma PlacedStrays(w: World, v: World, op: OpId, moved: set<Key>, marked: set<Key>)
    requires Unplaced(w, op) && Placed(w, v, op, moved, marked)
    ensures Astray(w, v, op, Unrecorded(w, op, moved, marked))
  {
    forall k | k in moved && k in w.source ensures Slot(op, k) in v.trash {
      assert Away(w, op, moved, Slot(op, k));
    }
  }

  lemma PlacedHomes(w: World, v: World, op: OpId, moved: set<Key>, marked: set<Key>)
    requires Unplaced(w, op) && Placed(w, v, op, moved, marked)
    ensures var lost := Unrecorded(w, op, moved, marked);
      Placeable(w) || lost == {} ==> forall k, d :: Home(v, k, d) <==> Home(w, k, d) && k !in lost
    ensures Placeable(w) ==> Placeable(v)
  {
    var lost := Unrecorded(w, op, moved, marked);
    assert forall s :: Restorable(v, s) <==> Restorable(w, s) || (Away(w, op, moved, s) && s.key !in lost);
    if Placeable(w) || lost == {} {
      forall k, d ensures Home(v, k, d) <==> Home(w, k, d) && k !in lost {
        if k in moved && k in w.source {
          assert Away(w, op, moved, Slot(op, k));
        }
      }
    }
  }

  /** A payload of `k` that is in the trash of `op`, or that recovery has to put back. */
  ghost predicate HasPayload(v: World, op: OpId, o: OpId, k: Key) {
    Restorable(v, Slot(o, k)) || (o == op && Slot(o, k) in v.trash)
  }

  /** While an operation stages or rolls back, a directory is unharmed in exactly one place: at its source, or
    * in the trash of that operation, or in the one payload an earlier operation has left. */
  lemma InOnePlace(w: World, v: World, op: OpId, moved: set<Key>, marked: set<Key>, k: Key, d: Tree)
    requires Sound(w) && Placeable(w) && Unplaced(w, op) && Placed(w, v, op, moved, marked) && Home(w, k, d)
    ensures if k in v.source then v.source[k] == d && !exists o :: HasPayload(v, op, o, k)
            else exists o :: HasPayload(v, op, o, k) && v.trash[Slot(o, k)] == d
    ensures forall o, o' | HasPayload(v, op, o, k) && HasPayload(v, op, o', k) :: o == o'
    ensures k in w.source ==> (k in v.source <==> Slot(op, k) !in v.trash)
  {
    assert Slot(op, k) in v.trash <==> Slot(op, k) in w.trash || Away(w, op, moved, Slot(op, k));
    assert forall o :: HasPayload(v, op, o, k) <==>
      Restorable(w, Slot(o, k)) || (o == op && Away(w, op, moved, Slot(op, k)));
    if k in w.source {
      assert forall o :: !Restorable(w, Slot(o, k));
      assert k !in v.source ==> HasPayload(v, op, op, k);
    } else {
      var o :| Restorable(w, Slot(o, k)) && w.trash[Slot(o, k)] == d;
      assert HasPayload(v, op, o, k);
      assert forall o' | Restorable(w, Slot(o', k)) :: Slot(o', k) == Slot(o, k);
    }
  }

  predicate StagesAt(w: World, s: Slot, io: Io) {
    io(PutMarker(s)) == Done && (s.key in w.source ==> io(Out(s)) == Done)
  }

  predicate Stages(w: World, op: OpId, keys: seq<Key>, io: Io) {
    io(MakeTrash(op)) == Done && forall k <- keys :: StagesAt(w, Slot(op, k), io)
  }

  /** Staging comes to entry `i` and moves its directory, whatever becomes of it afterwards. */
  predicate MovesOut(w: World, op: OpId, keys: seq<Key>, io: Io, i: nat) {
    && i < |keys| && io(MakeTrash(op)) == Done
    && (forall j | 0 <= j < i :: StagesAt(w, Slot(op, keys[j]), io))
    && MovesAt(w, Slot(op, keys[i]), io)
  }

  predicate MovesAt(w: World, s: Slot, io: Io) {
    io(PutMarker(s)) == Done && s.key in w.source && Happens(io(Out(s)))
  }

  function Names(keys: seq<Key>): set<Key> {
    set k | k in keys
  }

  function Prefix(keys: seq<Key>, n: nat): set<Key>
    requires n <= |keys|
  {
    set k | k in keys[..n]
  }

  lemma PrefixGrows(keys: seq<Key>, n: nat)
    requires n < |keys|
    ensures Prefix(keys, n + 1) == Prefix(keys, n) + {keys[n]}
    ensures Distinct(keys) ==> keys[n] !in Prefix(keys, n)
  {
  }

  /** Staging comes to entry `i`. */
  predicate Reached(w: World, op: OpId, keys: seq<Key>, io: Io, i: nat) {
    i < |keys| && io(MakeTrash(op)) == Done && forall j | 0 <= j < i :: StagesAt(w, Slot(op, keys[j]), io)
  }

  /** The entries that staging has recorded with a marker. */
  function MarkedBy(w: World, op: OpId, keys: seq<Key>, io: Io): set<Key> {
    set i | 0 <= i < |keys| && Reached(w, op, keys, io, i) && Happens(io(PutMarker(Slot(op, keys[i])))) :: keys[i]
  }

  /** The entries that staging has dealt with: their directories, if there are any, are in the trash. */
  function MovedBy(w: World, op: OpId, keys: seq<Key>, io: Io): set<Key> {
    set i | 0 <= i < |keys| && Reached(w, op, keys, io, i) && io(PutMarker(Slot(op, keys[i]))) == Done &&
            (keys[i] in w.source ==> Happens(io(Out(Slot(op, keys[i]))))) :: keys[i]
  }

  /** Moves the batch into the trash, entry by entry, each recorded by a marker before it is moved, and stops
    * where an effect does not go well. */
  method StageEntries(store: AppStore, disk: Disk, op: OpId, keys: seq<Key>, io: Io) returns (st: Status)
    requires Sound(View(store, disk)) && Unplaced(View(store, disk), op) && Distinct(keys)
    modifies disk
    ensures Kept(old(View(store, disk)), View(store, disk))
    ensures st == Fine <==> Stages(old(View(store, disk)), op, keys, io)
    ensures Placed(old(View(store, disk)), View(store, disk), op,
                   MovedBy(old(View(store, disk)), op, keys, io), MarkedBy(old(View(store, disk)), op, keys, io))
    ensures st == Fine ==> Placed(old(View(store, disk)), View(store, disk), op, Names(keys), Names(keys))
    ensures forall i: nat | MovesOut(old(View(store, disk)), op, keys, io, i) :: Slot(op, keys[i]) in disk.trash
    ensures disk.folders <= old(disk.folders) + {op}
    ensures NoHalt(io) ==> st != Crashed
  {
    ghost var w := View(store, disk);
    st := disk.MakeFolder(op, io(MakeTrash(op)));
    if st != Fine {
      assert MovedBy(w, op, keys, io) == MarkedBy(w, op, keys, io) == {};
      KeptSame(w);
      return;
    }
    ghost var moved, marked;
    st, moved, marked := StageAll(w, store, disk, op, keys, io);
    PlacedKeepsFate(w, View(store, disk), op, moved, marked);
    forall i: nat | MovesOut(w, op, keys, io, i) ensures Slot(op, keys[i]) in disk.trash {
      assert keys[i] in MovedBy(w, op, keys, io);
      assert Away(w, op, moved, Slot(op, keys[i]));
    }
  }

  method StageAll(ghost w: World, store: AppStore, disk: Disk, op: OpId, keys: seq<Key>, io: Io)
    returns (st: Status, ghost moved: set<Key>, ghost marked: set<Key>)
    requires Unplaced(w, op) && Distinct(keys) && w == View(store, disk) && io(MakeTrash(op)) == Done
    modifies disk`source, disk`trash, disk`markers
    ensures Placed(w, View(store, disk), op, moved, marked) && moved <= marked
    ensures st == Fine <==> forall k <- keys :: StagesAt(w, Slot(op, k), io)
    ensures st == Fine ==> moved == marked == Names(keys)
    ensures moved == MovedBy(w, op, keys, io) && marked == MarkedBy(w, op, keys, io)
    ensures NoHalt(io) ==> st != Crashed
  {
    moved, marked := {}, {};
    for n := 0 to |keys|
      invariant moved == marked == Prefix(keys, n)
      invariant Placed(w, View(store, disk), op, moved, marked)
      invariant forall k <- keys[..n] :: StagesAt(w, Slot(op, k), io)
    {
      PrefixGrows(keys, n);
      st, moved, marked := StageOne(w, store, disk, op, marked, keys[n], io);
      if st != Fine {
        StopsAt(w, op, keys, io, n);
        return;
      }
    }
    assert keys[..|keys|] == keys;
    StagesToTheEnd(w, op, keys, io);
    st := Fine;
  }

  /** What is marked and moved if staging stops at entry `n`. */
  lemma StopsAt(w: World, op: OpId, keys: seq<Key>, io: Io, n: nat)
    requires n < |keys| && io(MakeTrash(op)) == Done && Distinct(keys)
    requires (forall k <- keys[..n] :: StagesAt(w, Slot(op, k), io)) && !StagesAt(w, Slot(op, keys[n]), io)
    ensures MarkedBy(w, op, keys, io) ==
      Prefix(keys, n) + if Happens(io(PutMarker(Slot(op, keys[n])))) then {keys[n]} else {}
    ensures MovedBy(w, op, keys, io) ==
      Prefix(keys, n) + if MovesAt(w, Slot(op, keys[n]), io) then {keys[n]} else {}
  {
    assert forall i: nat | i < n :: keys[i] in keys[..n];
    assert forall i: nat | Reached(w, op, keys, io, i) :: i <= n;
    assert forall i: nat | i <= n :: Reached(w, op, keys, io, i);
    forall k | k in Prefix(keys, n) ensures k in MarkedBy(w, op, keys, io) && k in MovedBy(w, op, keys, io) {
      var i :| 0 <= i < n && keys[..n][i] == k;
      assert keys[i] == k && Reached(w, op, keys, io, i);
    }
  }

  lemma StagesToTheEnd(w: World, op: OpId, keys: seq<Key>, io: Io)
    requires io(MakeTrash(op)) == Done && forall k <- keys :: StagesAt(w, Slot(op, k), io)
    ensures MarkedBy(w, op, keys, io) == MovedBy(w, op, keys, io) == Names(keys)
  {
    forall k | k in Names(keys) ensures k in MarkedBy(w, op, keys, io) && k in MovedBy(w, op, keys, io) {
      var i :| 0 <= i < |keys| && keys[i] == k;
      assert Reached(w, op, keys, io, i);
    }
  }

  /** Records one entry with a marker and then moves its directory, if it is there at all. */
  method StageOne(ghost w: World, store: AppStore, disk: Disk, op: OpId, ghost was: set<Key>, key: Key, io: Io)
    returns (st: Status, ghost moved: set<Key>, ghost marked: set<Key>)
    requires Unplaced(w, op) && key !in was
    requires Placed(w, View(store, disk), op, was, was)
    modifies disk`source, disk`trash, disk`markers
    ensures Placed(w, View(store, disk), op, moved, marked) && moved <= marked
    ensures st == Fine <==> StagesAt(w, Slot(op, key), io)
    ensures st == Fine ==> moved == marked == was + {key}
    ensures st != Fine ==>
      && moved == was + (if MovesAt(w, Slot(op, key), io) then {key} else {})
      && marked == was + if Happens(io(PutMarker(Slot(op, key)))) then {key} else {}
    ensures NoHalt(io) ==> st != Crashed
  {
    moved, marked := was, was;
    var s := Slot(op, key);
    st := disk.WriteMarker(s, io(PutMarker(s)));
    if Happens(io(PutMarker(s))) {
      marked := was + {key};
    }
    if st != Fine {
      return;
    }
    if key in disk.source {
      st := disk.MoveOut(s, io(Out(s)));
      if !Happens(io(Out(s))) {
        return;
      }
    }
    moved := was + {key};
  }

  /* ------------------------------ rolling back ------------------------------ */

  /** The rollback loses this payload: the rename back is refused and the marker is removed all the same. */
  predicate Loses(w: World, s: Slot, io: Io) {
    s.key in w.source && io(Back(s)) == Refused && Happens(io(Unmark(s)))
  }

  /** The process lives through the rollback of this entry. */
  predicate Survives(w: World, s: Slot, io: Io) {
    (s.key in w.source ==> io(Back(s)) != Halt) && io(Unmark(s)) != Halt
  }

  predicate SurvivesFrom(w: World, op: OpId, keys: seq<Key>, io: Io, n: nat) {
    forall i | n <= i < |keys| :: Survives(w, Slot(op, keys[i]), io)
  }

  /** What the rollback loses: it goes from the last entry to the first, as far as the process lives. */
  function LostBy(w: World, op: OpId, keys: seq<Key>, io: Io): set<Key> {
    set j | 0 <= j < |keys| && Loses(w, Slot(op, keys[j]), io) && SurvivesFrom(w, op, keys, io, j + 1) :: keys[j]
  }

  /** The rename back and the removal of the marker of this entry go well. */
  predicate RollsBackAt(w: World, s: Slot, io: Io) {
    (s.key in w.source ==> io(Back(s)) == Done) && io(Unmark(s)) == Done
  }

  predicate RollsBackFrom(w: World, op: OpId, keys: seq<Key>, io: Io, n: nat) {
    forall i | n <= i < |keys| :: RollsBackAt(w, Slot(op, keys[i]), io)
  }

  /** Every effect of the rollback takes place. */
  predicate RollsBack(w: World, op: OpId, keys: seq<Key>, io: Io) {
    (forall k <- keys :: RollsBackAt(w, Slot(op, k), io)) && io(Sweep(op)) == Done
  }

  /** The entry has a directory that is not renamed back. */
  predicate StaysAway(w: World, s: Slot, io: Io) {
    s.key in w.source && !Happens(io(Back(s)))
  }

  /** The removal of the marker is not come to, or does not take place. */
  predicate StaysMarked(w: World, s: Slot, io: Io) {
    (s.key in w.source && io(Back(s)) == Halt) || !Happens(io(Unmark(s)))
  }

  /** What is still away and still marked when the rollback ends or dies. */
  function StillMoved(w: World, op: OpId, keys: seq<Key>, io: Io): set<Key> {
    set j | 0 <= j < |keys| &&
            (!SurvivesFrom(w, op, keys, io, j + 1) || StaysAway(w, Slot(op, keys[j]), io)) :: keys[j]
  }

  function StillMarked(w: World, op: OpId, keys: seq<Key>, io: Io): set<Key> {
    set j | 0 <= j < |keys| &&
            (!SurvivesFrom(w, op, keys, io, j + 1) || StaysMarked(w, Slot(op, keys[j]), io)) :: keys[j]
  }

  /** What is still away and still marked once the rollback has come down to entry `n`. */
  function MovedAbove(w: World, op: OpId, keys: seq<Key>, io: Io, n: nat): set<Key> {
    set j | 0 <= j < |keys| && (j < n || StaysAway(w, Slot(op, keys[j]), io)) :: keys[j]
  }

  function MarkedAbove(w: World, op: OpId, keys: seq<Key>, io: Io, n: nat): set<Key> {
    set j | 0 <= j < |keys| && (j < n || StaysMarked(w, Slot(op, keys[j]), io)) :: keys[j]
  }

  lemma OneDown(w: World, op: OpId, keys: seq<Key>, io: Io, n: nat)
    requires n < |keys| && Distinct(keys) && SurvivesFrom(w, op, keys, io, n + 1)
    ensures var s := Slot(op, keys[n]);
      && MovedAbove(w, op, keys, io, n) ==
         (if StaysAway(w, s, io) then MovedAbove(w, op, keys, io, n + 1)
          else MovedAbove(w, op, keys, io, n + 1) - {keys[n]})
      && MarkedAbove(w, op, keys, io, n) ==
         (if StaysMarked(w, s, io) then MarkedAbove(w, op, keys, io, n + 1)
          else MarkedAbove(w, op, keys, io, n + 1) - {keys[n]})
      && keys[n] in MovedAbove(w, op, keys, io, n + 1) && keys[n] in MarkedAbove(w, op, keys, io, n + 1)
    ensures RollsBackFrom(w, op, keys, io, n) <==>
      RollsBackFrom(w, op, keys, io, n + 1) && RollsBackAt(w, Slot(op, keys[n]), io)
    ensures SurvivesFrom(w, op, keys, io, n) <==> Survives(w, Slot(op, keys[n]), io)
  {
  }

  lemma DiesAt(w: World, op: OpId, keys: seq<Key>, io: Io, n: nat)
    requires n < |keys| && SurvivesFrom(w, op, keys, io, n + 1) && !Survives(w, Slot(op, keys[n]), io)
    ensures StillMoved(w, op, keys, io) == MovedAbove(w, op, keys, io, n)
    ensures StillMarked(w, op, keys, io) == MarkedAbove(w, op, keys, io, n)
  {
    forall m: nat | m <= n ensures !SurvivesFrom(w, op, keys, io, m) {
    }
  }

  lemma AtTheTop(w: World, op: OpId, keys: seq<Key>, io: Io)
    ensures MovedAbove(w, op, keys, io, |keys|) == MarkedAbove(w, op, keys, io, |keys|) == Names(keys)
    ensures SurvivesFrom(w, op, keys, io, 0) ==>
      && StillMoved(w, op, keys, io) == MovedAbove(w, op, keys, io, 0)
      && StillMarked(w, op, keys, io) == MarkedAbove(w, op, keys, io, 0)
    ensures RollsBack(w, op, keys, io) <==> RollsBackFrom(w, op, keys, io, 0) && io(Sweep(op)) == Done
  {
    forall k | k in Names(keys)
      ensures k in MovedAbove(w, op, keys, io, |keys|) && k in MarkedAbove(w, op, keys, io, |keys|)
    {
      var j :| 0 <= j < |keys| && keys[j] == k;
    }
  }

  /** The directories without a record at the end are those that the rollback has lost. */
  lemma MissingIsLost(w: World, op: OpId, keys: seq<Key>, io: Io)
    requires Distinct(keys)
    ensures Missing(w, StillMoved(w, op, keys, io), StillMarked(w, op, keys, io)) == LostBy(w, op, keys, io)
    ensures RollsBack(w, op, keys, io) ==> StillMoved(w, op, keys, io) == StillMarked(w, op, keys, io) == {}
    ensures LostBy(w, op, keys, io) <= Names(keys) && StillMoved(w, op, keys, io) <= Names(keys)
  {
    forall j, i | 0 <= j < |keys| && 0 <= i < |keys| && keys[i] == keys[j] ensures i == j {
    }
  }

  /** Renames every payload back and removes every marker, from the last entry to the first, whatever comes of
    * each; it is `restored` exactly if everything goes well. */
  method RollbackStaged(ghost w: World, store: AppStore, disk: Disk, op: OpId, keys: seq<Key>, io: Io)
    returns (st: Status, restored: bool, ghost moved: set<Key>, ghost marked: set<Key>)
    requires Unplaced(w, op) && Distinct(keys)
    requires Placed(w, View(store, disk), op, Names(keys), Names(keys))
    modifies disk
    ensures Placed(w, View(store, disk), op, moved, marked)
    ensures moved == StillMoved(w, op, keys, io) && marked == StillMarked(w, op, keys, io)
    ensures st != Failed && (st == Fine ==> (restored <==> RollsBack(w, op, keys, io)))
    ensures st == Fine <==> SurvivesFrom(w, op, keys, io, 0) && io(Sweep(op)) != Halt
  {
    moved, marked := Names(keys), Names(keys);
    restored := true;
    AtTheTop(w, op, keys, io);
    for n := |keys| downto 0
      invariant RolledTo(w, View(store, disk), op, keys, io, n, restored, moved, marked)
    {
      assert keys[n] in moved && keys[n] in marked;
      ghost var restored0, moved0, marked0 := restored, moved, marked;
      st, restored, moved, marked := RollbackOne(w, store, disk, Slot(op, keys[n]), restored, moved, marked, io);
      OneRolled(w, View(store, disk), op, keys, io, n, restored0, moved0, marked0, restored, moved, marked);
      if st == Crashed {
        return;
      }
    }
    st := disk.SweepFolder(op, io(Sweep(op)));
    if st == Failed {
      restored, st := false, Fine;
    }
  }

  /** Where the rollback stands once it has come down to entry `n`. */
  ghost predicate RolledTo(w: World, v: World, op: OpId, keys: seq<Key>, io: Io, n: nat,
                           restored: bool, moved: set<Key>, marked: set<Key>) {
    && n <= |keys| && SurvivesFrom(w, op, keys, io, n)
    && Placed(w, v, op, moved, marked)
    && moved == MovedAbove(w, op, keys, io, n) && marked == MarkedAbove(w, op, keys, io, n)
    && (restored <==> RollsBackFrom(w, op, keys, io, n))
  }

  lemma OneRolled(w: World, v: World, op: OpId, keys: seq<Key>, io: Io, n: nat,
                  restored: bool, moved: set<Key>, marked: set<Key>,
                  restored': bool, moved': set<Key>, marked': set<Key>)
    requires n < |keys| && Distinct(keys) && SurvivesFrom(w, op, keys, io, n + 1)
    requires moved == MovedAbove(w, op, keys, io, n + 1) && marked == MarkedAbove(w, op, keys, io, n + 1)
    requires restored <==> RollsBackFrom(w, op, keys, io, n + 1)
    requires Placed(w, v, op, moved', marked')
    requires var s := Slot(op, keys[n]);
      && moved' == (if StaysAway(w, s, io) then moved else moved - {keys[n]})
      && marked' == (if StaysMarked(w, s, io) then marked else marked - {keys[n]})
      && (Survives(w, s, io) ==> (restored' <==> restored && RollsBackAt(w, s, io)))
    ensures if Survives(w, Slot(op, keys[n]), io) then RolledTo(w, v, op, keys, io, n, restored', moved', marked')
            else moved' == StillMoved(w, op, keys, io) && marked' == StillMarked(w, op, keys, io) &&
                 !SurvivesFrom(w, op, keys, io, 0)
  {
    OneDown(w, op, keys, io, n);
    if !Survives(w, Slot(op, keys[n]), io) {
      DiesAt(w, op, keys, io, n);
    }
  }

  /** Renames one payload back, refusing to overwrite, and removes its marker in any case. */
  method RollbackOne(ghost w: World, store: AppStore, disk: Disk, s: Slot, restored: bool,
                     ghost moved: set<Key>, ghost marked: set<Key>, io: Io)
    returns (st: Status, restored': bool, ghost moved': set<Key>, ghost marked': set<Key>)
    requires Unplaced(w, s.op) && s.key in moved && s.key in marked
    requires Placed(w, View(store, disk), s.op, moved, marked)
    modifies disk`source, disk`trash, disk`markers
    ensures st != Failed && (st == Fine <==> Survives(w, s, io))
    ensures Placed(w, View(store, disk), s.op, moved', marked')
    ensures moved' == if StaysAway(w, s, io) then moved else moved - {s.key}
    ensures marked' == if StaysMarked(w, s, io) then marked else marked - {s.key}
    ensures st == Fine ==> (restored' <==> restored && RollsBackAt(w, s, io))
  {
    marked' := marked;
    st, restored', moved' := RenameBack(w, store, disk, s, moved, marked, io);
    restored' := restored && restored';
    if st == Crashed {
      return;
    }
    st := disk.RemoveMarkerIfExists(s, io(Unmark(s)));
    if Happens(io(Unmark(s))) {
      marked' := marked - {s.key};
    }
    if st == Failed {
      restored', st := false, Fine;
    }
  }

  method RenameBack(ghost w: World, store: AppStore, disk: Disk, s: Slot,
                    ghost moved: set<Key>, ghost marked: set<Key>, io: Io)
    returns (st: Status, restored: bool, ghost moved': set<Key>)
    requires Unplaced(w, s.op) && s.key in moved
    requires Placed(w, View(store, disk), s.op, moved, marked)
    modifies disk`source, disk`trash
    ensures st != Failed && (st == Crashed <==> s.key in w.source && io(Back(s)) == Halt)
    ensures Placed(w, View(store, disk), s.op, moved', marked)
    ensures moved' == if StaysAway(w, s, io) then moved else moved - {s.key}
    ensures st == Fine ==> (restored <==> s.key !in w.source || io(Back(s)) == Done)
  {
    moved', restored := moved, true;
    assert Away(w, s.op, moved, s) <==> s.key in w.source;
    if s !in disk.trash {
      return Fine, true, moved - {s.key};
    }
    if s.key in disk.source {
      return Fine, false, moved;
    }
    st := disk.MoveBack(s, io(Back(s)));
    if Happens(io(Back(s))) {
      moved' := moved - {s.key};
    }
    restored := st == Fine;
    if st == Failed {
      st := Fine;
    }
  }

  /* ------------------------------ committing and cleaning up ------------------------------ */

  /** Nothing anywhere carries the id of operation `op`. */
  ghost predicate Fresh(w: World, op: OpId) {
    && (forall s | s in w.trash || s in w.markers || s in w.intents :: s.op != op)
    && (forall k <- w.leases :: w.leases[k].op != op)
  }

  /** The batch is gone: recovery brings `v` to what it makes of `w` without it. */
  ghost predicate Gone(w: World, v: World, keys: set<Key>) {
    Taken(w, v, keys, keys) && SameStrays(w, v)
  }

  lemma GoneThenKept(w: World, v: World, u: World, keys: set<Key>)
    requires Gone(w, v, keys) && Kept(v, u)
    ensures Gone(w, u, keys)
  {
  }

  lemma StrayedThenKept(w: World, v: World, u: World, op: OpId, dirs: set<Key>)
    requires Strayed(w, v, op, dirs) && Kept(v, u)
    requires forall s | Stray(v, s) :: s in u.trash
    ensures Strayed(w, u, op, dirs)
  {
  }

  lemma ThenSame(w: World, v: World, u: World, keys: set<Key>)
    requires Kept(w, v) && w.source == v.source
    ensures Kept(v, u) ==> Kept(w, u)
    ensures Gone(v, u, keys) ==> Gone(w, u, keys)
    ensures forall op, dirs :: Strayed(v, u, op, dirs) ==> Strayed(w, u, op, dirs)
  {
  }

  /** After the commit nothing of the batch is put back, and everything else still is. */
  lemma CommitRestores(w: World, v: World, op: OpId, keys: set<Key>)
    requires Unplaced(w, op) && Placed(w, v, op, keys, keys)
    requires forall k <- keys :: Slot(op, k) in w.intents
    ensures forall s :: Restorable(Commit(v, op, keys), s) <==> Restorable(w, s)
  {
  }

  lemma CommitStrays(w: World, v: World, op: OpId, keys: set<Key>)
    requires Unplaced(w, op) && Placed(w, v, op, keys, keys)
    requires forall k <- keys :: Slot(op, k) in w.intents
    ensures SameStrays(w, Commit(v, op, keys))
  {
  }

  lemma CommitIsSound(w: World, v: World, op: OpId, keys: set<Key>)
    requires Sound(w) && Unplaced(w, op) && Placed(w, v, op, keys, keys)
    requires forall k <- keys :: Slot(op, k) in w.intents
    ensures Sound(Commit(v, op, keys))
    ensures Placeable(w) ==> Placeable(Commit(v, op, keys))
    ensures Uniform(w) ==> Uniform(Commit(v, op, keys))
  {
    CommitRestores(w, v, op, keys);
    PlacedKeepsFate(w, v, op, keys, keys);
  }

  lemma CommitHomes(w: World, v: World, op: OpId, keys: set<Key>)
    requires Placeable(w) || keys == {}
    requires Unplaced(w, op) && Placed(w, v, op, keys, keys)
    requires forall k <- keys :: Slot(op, k) in w.intents
    ensures var u := Commit(v, op, keys);
      forall k, d :: Home(u, k, d) <==> Home(w, k, d) && !(k in keys && k in w.source)
  {
    CommitRestores(w, v, op, keys);
    assert forall s | Restorable(w, s) :: v.trash[s] == w.trash[s];
  }

  /** Committing a staged batch takes away exactly what the batch named. */
  lemma CommitIsGone(w: World, v: World, op: OpId, keys: set<Key>)
    requires Sound(w) && Unplaced(w, op) && Placed(w, v, op, keys, keys)
    requires forall k <- keys :: Slot(op, k) in w.intents
    ensures Gone(w, Commit(v, op, keys), keys)
  {
    var u := Commit(v, op, keys);
    CommitIsSound(w, v, op, keys);
    CommitStrays(w, v, op, keys);
    if Placeable(w) || keys == {} {
      CommitHomes(w, v, op, keys);
    }
  }

  /** Every effect of the cleanup takes place. */
  predicate Cleans(w: World, op: OpId, keys: seq<Key>, io: Io) {
    (forall k <- keys :: ClearsAway(w, Slot(op, k), io)) && io(Sweep(op)) == Done && io(Finalize(op)) == Done
  }

  /** Best effort: a false `complete` leaves the committed intents for a later recovery.  The operation is
    * ended only once no marker and no payload of it is left, and it is exactly if every effect takes place. */
  method CleanupCommittedDelete(store: AppStore, disk: Disk, op: OpId, keys: seq<Key>, io: Io)
    returns (st: Status, complete: bool)
    requires Sound(View(store, disk)) && DeletesOnly(store.leases, op) && Distinct(keys)
    requires forall s <- store.intents | s.op == op :: s in Slots(op, Names(keys))
    requires forall s <- Slots(op, Names(keys)) :: IsCommitted(View(store, disk), s)
    modifies store`intents, store`leases, disk
    ensures Kept(old(View(store, disk)), View(store, disk))
    ensures disk.source == old(disk.source)
    ensures complete ==>
      && disk.trash == old(disk.trash) - Slots(op, Names(keys))
      && disk.markers == old(disk.markers) - Slots(op, Names(keys))
      && store.intents == WithoutIntents(old(store.intents), op, Committed)
      && store.leases == WithoutLeases(old(store.leases), op)
    ensures !complete ==> store.intents == old(store.intents) && store.leases == old(store.leases)
    ensures complete <==> Cleans(old(View(store, disk)), op, keys, io)
    ensures st == Crashed ==> !complete
    ensures NoHalt(io) ==> st != Crashed
  {
    ghost var w0 := View(store, disk);
    st := CleanupAll(store, disk, op, keys, io);
    if st != Fine {
      return st, false;
    }
    st := disk.SweepFolder(op, io(Sweep(op)));
    if st != Fine {
      return st, false;
    }
    ghost var w := View(store, disk);
    st := EndCommitted(store, disk, op, io);
    KeptTwice(w0, w, View(store, disk));
    complete := st == Fine;
  }

  /** Nothing of the operation is left on the disk: it ends. */
  method EndCommitted(store: AppStore, ghost disk: Disk, op: OpId, io: Io) returns (st: Status)
    requires Sound(View(store, disk)) && DeletesOnly(store.leases, op)
    requires forall s <- store.intents | s.op == op :: s !in disk.trash
    modifies store`intents, store`leases
    ensures Kept(old(View(store, disk)), View(store, disk))
    ensures store.intents ==
      if st == Fine then WithoutIntents(old(store.intents), op, Committed) else old(store.intents)
    ensures store.leases == if st == Fine then WithoutLeases(old(store.leases), op) else old(store.leases)
    ensures st == StatusOf(io(Finalize(op)))
  {
    DropIntentsKeepsFate(View(store, disk), op, Committed);
    KeptSame(View(store, disk));
    st := store.FinalizeLibraryDelete(op, io(Finalize(op)));
  }

  method CleanupAll(store: AppStore, disk: Disk, op: OpId, keys: seq<Key>, io: Io) returns (st: Status)
    requires Sound(View(store, disk)) && Distinct(keys)
    requires forall s <- Slots(op, Names(keys)) :: IsCommitted(View(store, disk), s)
    modifies disk`trash, disk`markers
    ensures Kept(old(View(store, disk)), View(store, disk))
    ensures st == Fine ==>
      && disk.trash == old(disk.trash) - Slots(op, Names(keys))
      && disk.markers == old(disk.markers) - Slots(op, Names(keys))
    ensures st == Fine <==> forall k <- keys :: ClearsAway(old(View(store, disk)), Slot(op, k), io)
    ensures NoHalt(io) ==> st != Crashed
  {
    ghost var w0 := View(store, disk);
    for n := 0 to |keys|
      invariant CleanedTo(w0, View(store, disk), op, keys, io, n)
    {
      ghost var w := View(store, disk);
      assert Slot(op, keys[n]) in Slots(op, Names(keys));
      st := CleanupOne(store, disk, Slot(op, keys[n]), io);
      OneCleaned(w0, w, View(store, disk), op, keys, io, n, st == Fine);
      if st != Fine {
        return;
      }
    }
    assert keys[..|keys|] == keys;
    st := Fine;
  }

  /** The first `n` entries are cleaned up. */
  ghost predicate CleanedTo(w: World, v: World, op: OpId, keys: seq<Key>, io: Io, n: nat) {
    && n <= |keys| && Kept(w, v) && v.intents == w.intents
    && v.trash == w.trash - Slots(op, Prefix(keys, n))
    && v.markers == w.markers - Slots(op, Prefix(keys, n))
    && forall k <- keys[..n] :: ClearsAway(w, Slot(op, k), io)
  }

  lemma OneCleaned(w: World, v: World, u: World, op: OpId, keys: seq<Key>, io: Io, n: nat, fine: bool)
    requires n < |keys| && Distinct(keys) && CleanedTo(w, v, op, keys, io, n)
    requires Kept(v, u) && u.intents == v.intents
    requires fine ==> u.trash == v.trash - {Slot(op, keys[n])} && u.markers == v.markers - {Slot(op, keys[n])}
    requires fine <==> ClearsAway(v, Slot(op, keys[n]), io)
    ensures Kept(w, u)
    ensures fine ==> CleanedTo(w, u, op, keys, io, n + 1)
    ensures !fine ==> !ClearsAway(w, Slot(op, keys[n]), io)
  {
    KeptTwice(w, v, u);
    PrefixGrows(keys, n);
    assert Slots(op, Prefix(keys, n + 1)) == Slots(op, Prefix(keys, n)) + {Slot(op, keys[n])};
    assert Slot(op, keys[n]) !in Slots(op, Prefix(keys, n));
    assert keys[..n + 1] == keys[..n] + [keys[n]];
  }

  method CleanupOne(store: AppStore, disk: Disk, s: Slot, io: Io) returns (st: Status)
    requires Sound(View(store, disk)) && IsCommitted(View(store, disk), s)
    modifies disk`trash, disk`markers
    ensures Kept(old(View(store, disk)), View(store, disk))
    ensures st == Fine ==> disk.trash == old(disk.trash) - {s} && disk.markers == old(disk.markers) - {s}
    ensures st == Fine <==> ClearsAway(old(View(store, disk)), s, io)
    ensures NoHalt(io) ==> st != Crashed
  {
    ghost var w := View(store, disk);
    st := disk.RemoveMarkerIfExists(s, io(Unmark(s)));
    if st == Fine {
      assert disk.markers == w.markers - {s};
      st := disk.RemoveDirIfExists(s, io(Clear(s)));
      assert st == Fine ==> disk.trash == w.trash - {s};
    }
    CleaningKeepsFate(w, View(store, disk), s);
  }

  /* ------------------------------ the whole operation ------------------------------ */

  predicate Granted(w: World, op: OpId, keys: seq<Key>, io: Io) {
    io(TakeLease(op)) == Done && forall k <- keys :: k !in w.leases
  }

  /** Of a staged batch: recording its intents fails, and the rollback loses a directory. */
  predicate StrandsStaged(w: World, op: OpId, keys: seq<Key>, io: Io) {
    io(Record(op)) != Done && io(Record(op)) != Halt && LostBy(w, op, keys, io) != {}
  }

  /** The run that leaves a directory in the trash with no record of it: the intents cannot be recorded,
    * and then the rollback cannot rename that directory back but removes its marker all the same. */
  predicate Strands(w: World, op: OpId, keys: seq<Key>, io: Io) {
    && Granted(w, op, keys, io)
    && Stages(w, op, keys, io)
    && StrandsStaged(w, op, keys, io)
  }

  /** Staging fails after it has moved the directory of `key`, and the rename back does not take place. */
  predicate LeftBehind(w: World, op: OpId, keys: seq<Key>, io: Io, key: Key) {
    && Granted(w, op, keys, io) && !Stages(w, op, keys, io) && !Happens(io(Back(Slot(op, key))))
    && exists i | 0 <= i < |keys| :: keys[i] == key && MovesOut(w, op, keys, io, i)
  }

  /** What a rollback without intents comes to. */
  lemma RolledBack(w: World, v: World, op: OpId, moved: set<Key>, marked: set<Key>)
    requires Sound(w) && Unplaced(w, op) && Placed(w, v, op, moved, marked)
    requires forall s <- w.intents :: s.op != op
    ensures Strayed(w, v, op, Missing(w, moved, marked))
    ensures moved == marked == {} ==> v == w
  {
    PlacedKeepsFate(w, v, op, moved, marked);
    assert Unrecorded(w, op, moved, marked) == Missing(w, moved, marked);
    if moved == marked == {} {
      assert v.source == w.source && v.markers == w.markers;
      assert v.trash == w.trash by {
        assert forall s :: !Away(w, op, moved, s);
      }
    }
  }

  /** Aborting an operation without intents only gives its leases back. */
  lemma AbortUnrecorded(w: World, v: World, u: World, op: OpId, lost: set<Key>, aborted: bool)
    requires Sound(w) && DeletesOnly(w.leases, op) && v.leases == w.leases && v.intents == w.intents
    requires forall s <- w.intents :: s.op != op
    requires Strayed(w, v, op, lost)
    requires u == if aborted then DropIntents(v, op, Staged) else v
    ensures Strayed(w, u, op, lost)
    ensures u.source == v.source && u.trash == v.trash && u.markers == v.markers && u.intents == w.intents
    ensures aborted ==> u.leases == WithoutLeases(w.leases, op)
  {
    assert WithoutIntents(v.intents, op, Staged) == v.intents;
    if aborted {
      DropIntentsKeepsFate(v, op, Staged);
      StrayedThenKept(w, v, u, op, lost);
    }
  }

  /** After a rollback that has gone through, a directory is back exactly if its rename took place, and a marker
    * is gone exactly if its removal did. */
  ghost predicate Undone(w: World, v: World, op: OpId, keys: seq<Key>, io: Io) {
    && (forall k <- keys | k in w.source ::
         if Happens(io(Back(Slot(op, k)))) then k in v.source && v.source[k] == w.source[k]
         else Slot(op, k) in v.trash && v.trash[Slot(op, k)] == w.source[k])
    && (forall k <- keys :: Slot(op, k) in v.markers <==> !Happens(io(Unmark(Slot(op, k)))))
  }

  lemma AfterRollback(w: World, v: World, op: OpId, keys: seq<Key>, io: Io)
    requires Unplaced(w, op) && Distinct(keys)
    requires Placed(w, v, op, StillMoved(w, op, keys, io), StillMarked(w, op, keys, io))
    ensures SurvivesFrom(w, op, keys, io, 0) ==> Undone(w, v, op, keys, io)
    ensures RollsBack(w, op, keys, io) ==> v == w
    ensures Missing(w, StillMoved(w, op, keys, io), StillMarked(w, op, keys, io)) == LostBy(w, op, keys, io)
  {
    var moved, marked := StillMoved(w, op, keys, io), StillMarked(w, op, keys, io);
    MissingIsLost(w, op, keys, io);
    if RollsBack(w, op, keys, io) {
      assert v.source == w.source && v.markers == w.markers;
      assert v.trash == w.trash by {
        assert forall s :: !Away(w, op, moved, s);
      }
    }
    if SurvivesFrom(w, op, keys, io, 0) {
      AliveToTheEnd(w, op, keys, io);
      forall k | k in keys && k in w.source && k in moved ensures Slot(op, k) in v.trash {
        assert Away(w, op, moved, Slot(op, k));
      }
    }
  }

  lemma AliveToTheEnd(w: World, op: OpId, keys: seq<Key>, io: Io)
    requires Distinct(keys) && SurvivesFrom(w, op, keys, io, 0)
    ensures forall k <- keys :: k in StillMoved(w, op, keys, io) <==> StaysAway(w, Slot(op, k), io)
    ensures forall k <- keys :: k in StillMarked(w, op, keys, io) <==> !Happens(io(Unmark(Slot(op, k))))
  {
    forall k | k in keys
      ensures k in StillMoved(w, op, keys, io) <==> StaysAway(w, Slot(op, k), io)
      ensures k in StillMarked(w, op, keys, io) <==> !Happens(io(Unmark(Slot(op, k))))
    {
      var j :| 0 <= j < |keys| && keys[j] == k;
      assert Survives(w, Slot(op, keys[j]), io);
    }
  }

  /** The process lives through the rollback. */
  predicate LivesThrough(w: World, op: OpId, keys: seq<Key>, io: Io) {
    SurvivesFrom(w, op, keys, io, 0) && io(Sweep(op)) != Halt
  }

  /** The intents could not be recorded: roll the directories back and abort, whatever came of it. */
  method UndoUnrecorded(ghost w: World, store: AppStore, disk: Disk, op: OpId, keys: seq<Key>, io: Io)
    returns (r: DeleteResult)
    requires Sound(w) && Unplaced(w, op) && DeletesOnly(w.leases, op) && Distinct(keys)
    requires forall s <- w.intents :: s.op != op
    requires Placed(w, View(store, disk), op, Names(keys), Names(keys))
    modifies disk, store`leases, store`intents
    ensures Strayed(w, View(store, disk), op, LostBy(w, op, keys, io))
    ensures r == Died || r == Rejected(NotRecorded(RollsBack(w, op, keys, io)))
    ensures r == Died <==> !LivesThrough(w, op, keys, io) || io(Abort(op)) == Halt
    ensures NoHalt(io) ==> r != Died
    ensures r != Died ==> Undone(w, View(store, disk), op, keys, io)
    ensures r == Rejected(NotRecorded(true)) ==>
      disk.source == w.source && disk.trash == w.trash && disk.markers == w.markers
    ensures r != Died ==> store.intents == w.intents
    ensures r != Died ==> store.leases == if io(Abort(op)) == Done then WithoutLeases(w.leases, op) else w.leases
  {
    var st, restored;
    ghost var moved, marked;
    st, restored, moved, marked := RollbackStaged(w, store, disk, op, keys, io);
    ghost var v := View(store, disk);
    AfterRollback(w, v, op, keys, io);
    RolledBack(w, v, op, moved, marked);
    if st == Crashed {
      return Died;
    }
    st := store.AbortLibraryDelete(op, io(Abort(op)));
    AbortUnrecorded(w, v, View(store, disk), op, LostBy(w, op, keys, io), io(Abort(op)) == Done);
    return if st == Crashed then Died else Rejected(NotRecorded(restored));
  }

  /** A rollback with staged intents on record loses nothing, however it goes. */
  lemma RolledBackOnRecord(w: World, v: World, op: OpId, moved: set<Key>, marked: set<Key>)
    requires Sound(w) && Unplaced(w, op) && DeletesOnly(w.leases, op) && Placed(w, v, op, moved, marked)
    requires forall k <- moved :: Slot(op, k) in w.intents
    ensures Kept(w, v)
    ensures moved == marked == {} ==> v == w && Kept(w, DropIntents(v, op, Staged))
  {
    PlacedKeepsFate(w, v, op, moved, marked);
    assert Unrecorded(w, op, moved, marked) == {};
    if moved == marked == {} {
      assert v.source == w.source && v.markers == w.markers;
      assert v.trash == w.trash by {
        assert forall s :: !Away(w, op, moved, s);
      }
      DropIntentsKeepsFate(w, op, Staged);
    }
  }

  /** The commit failed: roll the directories back, and forget the intents only if that went well. */
  method UndoUncommitted(ghost w: World, store: AppStore, disk: Disk, op: OpId, keys: seq<Key>, io: Io)
    returns (r: DeleteResult)
    requires Sound(w) && Unplaced(w, op) && DeletesOnly(w.leases, op) && Distinct(keys)
    requires forall k <- keys :: Slot(op, k) in w.intents
    requires Placed(w, View(store, disk), op, Names(keys), Names(keys))
    modifies disk, store`leases, store`intents
    ensures Kept(w, View(store, disk))
    ensures Uncommitted(w, View(store, disk), r, op, keys, io)
  {
    var st, restored;
    ghost var moved, marked;
    st, restored, moved, marked := RollbackStaged(w, store, disk, op, keys, io);
    ghost var v := View(store, disk);
    AfterRollback(w, v, op, keys, io);
    MissingIsLost(w, op, keys, io);
    RolledBackOnRecord(w, v, op, moved, marked);
    if st == Crashed {
      return Died;
    }
    if restored {
      st := store.AbortLibraryDelete(op, io(Abort(op)));
      assert View(store, disk) == if io(Abort(op)) == Done then DropIntents(v, op, Staged) else v;
    }
    return if st == Crashed then Died else Rejected(NotCommitted(restored));
  }

  /** How a rollback with staged intents on record ends: they are forgotten exactly if it went well and the store
    * takes the abort; otherwise they stay for recovery, with their leases. */
  ghost predicate Uncommitted(w: World, u: World, r: DeleteResult, op: OpId, keys: seq<Key>, io: Io) {
    && (r == Died || r == Rejected(NotCommitted(RollsBack(w, op, keys, io))))
    && (r == Died <==> !LivesThrough(w, op, keys, io) || (RollsBack(w, op, keys, io) && io(Abort(op)) == Halt))
    && (r != Died ==> Undone(w, u, op, keys, io))
    && (r == Rejected(NotCommitted(true)) ==>
         u.source == w.source && u.trash == w.trash && u.markers == w.markers)
    && (r != Died ==>
         if RollsBack(w, op, keys, io) && io(Abort(op)) == Done
         then u.intents == WithoutIntents(w.intents, op, Staged) && u.leases == WithoutLeases(w.leases, op)
         else u.intents == w.intents && u.leases == w.leases)
  }

  /** With the intents of a staged batch on record, everything stays recoverable. */
  lemma RecordPlaced(w: World, v: World, op: OpId, keys: set<Key>)
    requires Sound(w) && Unplaced(w, op) && DeletesOnly(w.leases, op) && Placed(w, v, op, keys, keys)
    requires forall s <- w.intents :: s.op != op
    ensures Kept(w, RecordIntents(w, op, keys)) && Unplaced(RecordIntents(w, op, keys), op)
    ensures Placed(RecordIntents(w, op, keys), RecordIntents(v, op, keys), op, keys, keys)
  {
    RecordKeepsFate(w, op, keys);
  }

  /** The batch is committed: whatever becomes of the cleanup, the batch is gone. */
  method FinishCommitted(ghost w: World, ghost v: World, store: AppStore, disk: Disk, op: OpId, keys: seq<Key>, io: Io)
    returns (st: Status, complete: bool)
    requires Sound(w) && Unplaced(w, op) && DeletesOnly(w.leases, op) && Distinct(keys)
    requires forall s <- w.intents :: s.op == op ==> s in Slots(op, Names(keys))
    requires Slots(op, Names(keys)) <= w.intents.Keys
    requires Placed(w, v, op, Names(keys), Names(keys)) && View(store, disk) == Commit(v, op, Names(keys))
    modifies disk, store
    ensures Gone(w, View(store, disk), Names(keys))
    ensures store.revision == old(store.revision)
    ensures st == Crashed ==> !complete
    ensures complete <==> CleansUp(w, op, keys, io)
    ensures complete ==> Purged(w, View(store, disk), op, Names(keys))
    ensures !complete ==> store.intents == CommittedIntents(w.intents, op) && store.leases == w.leases
    ensures NoHalt(io) ==> st != Crashed
  {
    ghost var u := View(store, disk);
    CommittedBatch(w, v, op, Names(keys));
    CleansBatch(w, v, op, keys, io);
    st, complete := CleanupCommittedDelete(store, disk, op, keys, io);
    ghost var z := View(store, disk);
    GoneThenKept(w, u, z, Names(keys));
    if complete {
      PurgedWhenComplete(w, v, z, op, Names(keys));
    }
  }

  /** Every effect of the cleanup of a batch takes place; a missing directory need not be removed. */
  predicate CleansUp(w: World, op: OpId, keys: seq<Key>, io: Io) {
    && (forall k <- keys :: io(Unmark(Slot(op, k))) == Done)
    && (forall k <- keys :: if k in w.source then io(Clear(Slot(op, k))) == Done else io(Clear(Slot(op, k))) != Halt)
    && io(Sweep(op)) == Done && io(Finalize(op)) == Done
  }

  lemma CleansBatch(w: World, v: World, op: OpId, keys: seq<Key>, io: Io)
    requires Unplaced(w, op) && Placed(w, v, op, Names(keys), Names(keys))
    ensures Cleans(Commit(v, op, Names(keys)), op, keys, io) <==> CleansUp(w, op, keys, io)
  {
    forall k | k in keys
      ensures Slot(op, k) in v.markers && (Slot(op, k) in v.trash <==> k in w.source)
    {
      assert Away(w, op, Names(keys), Slot(op, k)) <==> k in w.source;
    }
  }

  lemma CommittedBatch(w: World, v: World, op: OpId, keys: set<Key>)
    requires Sound(w) && Unplaced(w, op) && DeletesOnly(w.leases, op)
    requires forall s <- w.intents :: s.op == op ==> s in Slots(op, keys)
    requires Slots(op, keys) <= w.intents.Keys
    requires Placed(w, v, op, keys, keys)
    ensures var u := Commit(v, op, keys);
      && Gone(w, u, keys)
      && DeletesOnly(u.leases, op)
      && (forall s <- u.intents | s.op == op :: s in Slots(op, keys))
      && (forall s <- Slots(op, keys) :: IsCommitted(u, s))
  {
    assert forall k <- keys :: Slot(op, k) in Slots(op, keys);
    CommitIsGone(w, v, op, keys);
  }

  /** The compare and swap of the commit goes through. */
  predicate Swaps(w: World, op: OpId, expected: nat, io: Io) {
    io(Cas(op)) == Done && expected == w.revision
  }

  /** How the commit of a staged and recorded batch ends, once the process has lived through it. */
  ghost predicate CommitReport(w: World, u: World, r: DeleteResult, op: OpId, expected: nat, keys: seq<Key>, io: Io) {
    && (NoHalt(io) ==> r != Died)
    && (Swaps(w, op, expected, io) ==>
         && (r == Died || r == Deleted(u.revision, CleansUp(w, op, keys, io)))
         && (r == Deleted(u.revision, false) ==>
              u.intents == CommittedIntents(w.intents, op) && u.leases == w.leases))
    && (!Swaps(w, op, expected, io) ==> r == Died || Uncommitted(w, u, r, op, keys, io))
  }

  /** The batch is staged and recorded: commit and clean up, or undo. */
  method CommitStaged(ghost w: World, store: AppStore, disk: Disk, op: OpId, expected: nat, keys: seq<Key>, io: Io)
    returns (r: DeleteResult)
    requires Sound(w) && Unplaced(w, op) && DeletesOnly(w.leases, op) && Distinct(keys) && keys != []
    requires forall s <- w.intents :: s.op == op ==> s in Slots(op, Names(keys))
    requires Slots(op, Names(keys)) <= w.intents.Keys
    requires Placed(w, View(store, disk), op, Names(keys), Names(keys))
    modifies disk, store
    ensures Kept(w, View(store, disk)) || Gone(w, View(store, disk), Names(keys))
    ensures r.Rejected? ==> Kept(w, View(store, disk))
    ensures r.Deleted? ==> Gone(w, View(store, disk), Names(keys)) && Swaps(w, op, expected, io)
    ensures r.Deleted? && r.cleanupComplete ==> Purged(w, View(store, disk), op, Names(keys))
    ensures CommitReport(w, View(store, disk), r, op, expected, keys, io)
  {
    ghost var v := View(store, disk);
    var st, committed := CommitBatch(w, store, disk, op, expected, keys, io);
    if st == Fine {
      var complete;
      st, complete := FinishCommitted(w, v, store, disk, op, keys, io);
      r := if st == Crashed then Died else Deleted(committed, complete);
    } else {
      assert View(store, disk) == v;
      r := AfterFailedCommit(w, store, disk, op, keys, st == Crashed, io);
    }
  }

  method AfterFailedCommit(ghost w: World, store: AppStore, disk: Disk, op: OpId, keys: seq<Key>, crashed: bool, io: Io)
    returns (r: DeleteResult)
    requires Sound(w) && Unplaced(w, op) && DeletesOnly(w.leases, op) && Distinct(keys)
    requires Slots(op, Names(keys)) <= w.intents.Keys
    requires Placed(w, View(store, disk), op, Names(keys), Names(keys))
    modifies disk, store
    ensures Kept(w, View(store, disk)) && !r.Deleted?
    ensures if crashed then r == Died else Uncommitted(w, View(store, disk), r, op, keys, io)
  {
    assert forall k <- keys :: Slot(op, k) in Slots(op, Names(keys));
    if crashed {
      PlacedKeepsFate(w, View(store, disk), op, Names(keys), Names(keys));
      r := Died;
    } else {
      r := UndoUncommitted(w, store, disk, op, keys, io);
    }
  }

  method CommitBatch(ghost w: World, store: AppStore, ghost disk: Disk, op: OpId, expected: nat, keys: seq<Key>, io: Io)
    returns (st: Status, committed: nat)
    requires Unplaced(w, op) && keys != []
    requires Slots(op, Names(keys)) <= w.intents.Keys
    requires Placed(w, View(store, disk), op, Names(keys), Names(keys))
    modifies store
    ensures st == Fine <==> Swaps(w, op, expected, io)
    ensures st == Crashed <==> io(Cas(op)) == Halt
    ensures st == Fine ==> committed == store.revision
    ensures st == Fine ==> View(store, disk) == Commit(old(View(store, disk)), op, Names(keys))
    ensures st != Fine ==> View(store, disk) == old(View(store, disk))
  {
    assert Slot(op, keys[0]) in Slots(op, Names(keys));
    st, committed := store.CommitLibraryDeleteIfRevision(expected, op, Names(keys), io(Cas(op)));
  }

  /** `v` is `w` without the batch and without a trace of the operation. */
  ghost predicate Purged(w: World, v: World, op: OpId, keys: set<Key>) {
    && v.source == w.source - keys
    && v.trash == w.trash
    && v.markers == w.markers
    && v.rows == w.rows - keys
    && v.revision == (if w.rows.Keys !! keys then w.revision else w.revision + 1)
    && v.intents == (map s | s in w.intents && s.op != op :: w.intents[s])
    && v.leases == WithoutLeases(w.leases, op)
  }

  lemma PurgedWhenComplete(w: World, v: World, z: World, op: OpId, keys: set<Key>)
    requires Unplaced(w, op) && Placed(w, v, op, keys, keys)
    requires var u := Commit(v, op, keys);
      && z.source == u.source
      && z.trash == u.trash - Slots(op, keys)
      && z.markers == u.markers - Slots(op, keys)
      && z.rows == u.rows && z.revision == u.revision
      && z.intents == WithoutIntents(u.intents, op, Committed)
      && z.leases == WithoutLeases(u.leases, op)
    ensures Purged(w, z, op, keys)
  {
  }

  /** The deletion in full: the batch loses its rows and its directories, and nothing else changes. */
  function Without(w: World, keys: set<Key>): World {
    w.(source := w.source - keys,
       rows := w.rows - keys,
       revision := if w.rows.Keys !! keys then w.revision else w.revision + 1)
  }

  lemma PurgedIsWithout(w: World, v: World, op: OpId, keys: set<Key>)
    requires Fresh(w, op) && keys !! w.leases.Keys
    requires Purged(RecordIntents(TakeLeases(w, op, keys), op, keys), v, op, keys)
    ensures v == Without(w, keys)
  {
  }

  ghost predicate LeasedFate(w: World, u: World, r: DeleteResult, op: OpId, expected: nat, keys: seq<Key>, io: Io) {
    var stranded := Stages(w, op, keys, io) && StrandsStaged(w, op, keys, io);
    && (stranded ==> !r.Deleted? && Strayed(w, u, op, LostBy(w, op, keys, io)))
    && (!stranded ==> Kept(w, u) || Gone(w, u, Names(keys)))
    && (!stranded && r.Rejected? ==> Kept(w, u))
    && (r.Deleted? ==> Gone(w, u, Names(keys)) && expected == w.revision && r.revision == u.revision)
    && (r.Deleted? && r.cleanupComplete ==> Purged(RecordIntents(w, op, Names(keys)), u, op, Names(keys)))
  }

  /** What the caller hears, in terms of the effects, and what is left of the records. */
  ghost predicate LeasedReport(w: World, u: World, r: DeleteResult, op: OpId, expected: nat, keys: seq<Key>, io: Io) {
    && (NoHalt(io) ==> r != Died)
    && (r != Died ==>
         && (if Stages(w, op, keys, io) then StagedReport(w, u, r, op, expected, keys, io)
             else UnstagedReport(w, u, r, op, keys))
         && u.intents == RecordsAfter(w, r, op, keys, io)
         && u.leases == if Ends(r, op, io) then WithoutLeases(w.leases, op) else w.leases)
    && (!Stages(w, op, keys, io) ==> StaysBehind(w, u, op, keys, io))
  }

  /** What staging has moved and the undoing cannot rename stays in the trash. */
  ghost predicate StaysBehind(w: World, u: World, op: OpId, keys: seq<Key>, io: Io) {
    && u.intents == w.intents
    && forall i: nat | MovesOut(w, op, keys, io, i) && !Happens(io(Back(Slot(op, keys[i])))) ::
         Slot(op, keys[i]) in u.trash
  }

  /** Of a batch that was staged. */
  ghost predicate StagedReport(w: World, u: World, r: DeleteResult, op: OpId, expected: nat, keys: seq<Key>, io: Io) {
    && r == (if io(Record(op)) != Done then Rejected(NotRecorded(RollsBack(w, op, keys, io)))
             else if !Swaps(w, op, expected, io) then Rejected(NotCommitted(RollsBack(w, op, keys, io)))
             else Deleted(u.revision, CleansUp(w, op, keys, io)))
    && (r.Rejected? ==> Undone(w, u, op, keys, io))
    && (r == Rejected(NotRecorded(true)) || r == Rejected(NotCommitted(true)) ==>
         u.source == w.source && u.trash == w.trash && u.markers == w.markers)
  }

  /** The operation is over: its records are gone, and its leases given back. */
  predicate Ends(r: DeleteResult, op: OpId, io: Io) {
    match r
    case Deleted(_, complete) => complete
    case Rejected(NotStaged(_)) => io(Release(op)) == Done
    case Rejected(NotRecorded(_)) => io(Abort(op)) == Done
    case Rejected(NotCommitted(restored)) => restored && io(Abort(op)) == Done
    case _ => false
  }

  /** The intents that are left. */
  ghost function RecordsAfter(w: World, r: DeleteResult, op: OpId, keys: seq<Key>, io: Io): map<Slot, Phase> {
    if r.Deleted? && !r.cleanupComplete then CommittedIntents(WithIntents(w.intents, op, Names(keys)), op)
    else if r.Rejected? && r.reason.NotCommitted? && !Ends(r, op, io) then WithIntents(w.intents, op, Names(keys))
    else w.intents
  }

  /** Every effect takes place that the undoing of an incomplete staging comes to. */
  ghost predicate Unstages(w: World, op: OpId, keys: seq<Key>, folders: set<OpId>, io: Io) {
    && io(Read(1)) == Done
    && (forall s <- w.markers | s !in w.intents :: GoesBack(w, s, io))
    && (forall k <- keys :: (k in w.source ==> io(Back(Slot(op, k))) == Done) && io(Unmark(Slot(op, k))) == Done)
    && (forall other | other == op || Folder(w, folders, other) :: io(Sweep(other)) == Done)
  }

  /** Every directory of the batch is where it was, and nothing of the operation is left on the disk. */
  ghost predicate Restored(w: World, u: World, op: OpId, keys: seq<Key>) {
    && (forall k <- keys | k in w.source :: k in u.source && u.source[k] == w.source[k])
    && forall k :: Slot(op, k) !in u.trash && Slot(op, k) !in u.markers
  }

  /** Of a batch whose staging was not completed. */
  ghost predicate UnstagedReport(w: World, u: World, r: DeleteResult, op: OpId, keys: seq<Key>) {
    && r.Rejected? && r.reason.NotStaged?
    && (r == Rejected(NotStaged(true)) ==>
         u.markers <= u.intents.Keys && forall s <- u.trash :: s in u.intents || Stray(w, s))
    && (r == Rejected(NotStaged(true)) && Placeable(w) ==> Restored(w, u, op, keys))
  }

  /** The leases are taken: stage the batch and record it, or undo. */
  method DeleteLeased(ghost w: World, store: AppStore, disk: Disk, op: OpId, expected: nat, keys: seq<Key>, io: Io)
    returns (r: DeleteResult)
    requires w == View(store, disk) && Sound(w) && Unplaced(w, op) && DeletesOnly(w.leases, op)
    requires forall s <- w.intents :: s.op != op
    requires Distinct(keys) && keys != []
    modifies disk, store
    ensures LeasedFate(w, View(store, disk), r, op, expected, keys, io)
    ensures LeasedReport(w, View(store, disk), r, op, expected, keys, io)
    ensures !Stages(w, op, keys, io) && Placeable(w) && Unstages(w, op, keys, old(disk.folders), io) ==>
      r == Died || r == Rejected(NotStaged(true))
  {
    ghost var folders := disk.folders;
    var st := StageEntries(store, disk, op, keys, io);
    if st == Crashed {
      StagedBehind(w, View(store, disk), View(store, disk), op, keys, io);
      return Died;
    }
    if st == Failed {
      r := UndoStaging(w, folders, store, disk, op, expected, keys, io);
      return;
    }
    r := RecordStaged(w, store, disk, op, expected, keys, io);
  }

  /** The batch is staged in part, and no further. */
  method UndoStaging(ghost w: World, ghost folders: set<OpId>, store: AppStore, disk: Disk, op: OpId,
                     ghost expected: nat, ghost keys: seq<Key>, io: Io)
    returns (r: DeleteResult)
    requires Sound(w) && Unplaced(w, op) && DeletesOnly(w.leases, op) && !Stages(w, op, keys, io)
    requires (forall s <- w.intents :: s.op != op) && disk.folders <= folders + {op}
    requires Kept(w, View(store, disk))
    requires Placed(w, View(store, disk), op, MovedBy(w, op, keys, io), MarkedBy(w, op, keys, io))
    requires forall i: nat | MovesOut(w, op, keys, io, i) :: Slot(op, keys[i]) in disk.trash
    modifies disk, store
    ensures LeasedFate(w, View(store, disk), r, op, expected, keys, io)
    ensures LeasedReport(w, View(store, disk), r, op, expected, keys, io)
    ensures Placeable(w) && Unstages(w, op, keys, folders, io) ==> r == Died || r == Rejected(NotStaged(true))
  {
    ghost var v := View(store, disk);
    UnstagesIt(w, v, op, keys, folders, disk.folders, io);
    r := UndoUnstaged(store, disk, op, io);
    KeptTwice(w, v, View(store, disk));
    StagedBehind(w, v, View(store, disk), op, keys, io);
    if r == Rejected(NotStaged(true)) && Placeable(w) {
      BackWhereItWas(w, v, View(store, disk), op, keys, io);
    }
  }

  lemma StagedBehind(w: World, v: World, u: World, op: OpId, keys: seq<Key>, io: Io)
    requires forall i: nat | MovesOut(w, op, keys, io, i) :: Slot(op, keys[i]) in v.trash
    requires forall s <- v.trash | !Happens(io(Back(s))) :: s in u.trash
    requires u.intents == w.intents
    ensures StaysBehind(w, u, op, keys, io)
  {
  }

  /** The orphan scan after a staging comes to nothing else than the markers that were there and those of the
    * batch. */
  lemma UnstagesIt(w: World, v: World, op: OpId, keys: seq<Key>, before: set<OpId>, folders: set<OpId>, io: Io)
    requires Unplaced(w, op) && folders <= before + {op} && forall s <- w.intents :: s.op != op
    requires Placed(w, v, op, MovedBy(w, op, keys, io), MarkedBy(w, op, keys, io))
    ensures Unstages(w, op, keys, before, io) ==> Scans(v, folders, io)
  {
    if Unstages(w, op, keys, before, io) {
      forall s | s in v.markers && s !in v.intents ensures GoesBack(v, s, io) {
        assert s in v.trash ==> s in w.trash || Away(w, op, MovedBy(w, op, keys, io), s);
      }
      forall other | Folder(v, folders, other) ensures io(Sweep(other)) == Done {
        assert other == op || Folder(w, before, other);
      }
    }
  }

  /** Once the orphan scan has come to its end, nothing of the operation is left, so its directories are home. */
  lemma BackWhereItWas(w: World, v: World, u: World, op: OpId, keys: seq<Key>, io: Io)
    requires Placeable(w) && Unplaced(w, op) && forall s <- w.intents :: s.op != op
    requires Kept(w, u) && u.intents == w.intents && u.trash.Keys <= v.trash.Keys
    requires Placed(w, v, op, MovedBy(w, op, keys, io), MarkedBy(w, op, keys, io))
    requires u.markers <= u.intents.Keys && forall s <- u.trash :: s in u.intents || Stray(w, s)
    ensures Restored(w, u, op, keys)
  {
    forall k | k in w.source ensures k in u.source && u.source[k] == w.source[k] {
      assert Home(w, k, w.source[k]) && Home(u, k, w.source[k]);
      forall o ensures !Restorable(u, Slot(o, k)) {
        if Restorable(u, Slot(o, k)) {
          assert Restorable(w, Slot(o, k));
        }
      }
    }
  }

  /** The batch is staged: record it and commit, or undo. */
  method RecordStaged(ghost w: World, store: AppStore, disk: Disk, op: OpId, expected: nat, keys: seq<Key>, io: Io)
    returns (r: DeleteResult)
    requires Sound(w) && Unplaced(w, op) && DeletesOnly(w.leases, op) && Stages(w, op, keys, io)
    requires forall s <- w.intents :: s.op != op
    requires Distinct(keys) && keys != []
    requires Kept(w, View(store, disk)) && Placed(w, View(store, disk), op, Names(keys), Names(keys))
    modifies disk, store
    ensures LeasedFate(w, View(store, disk), r, op, expected, keys, io)
    ensures LeasedReport(w, View(store, disk), r, op, expected, keys, io)
  {
    ghost var v := View(store, disk);
    var st := store.RecordLibraryDeleteIntents(op, Names(keys), io(Record(op)));
    assert keys[0] in Names(keys);
    assert st == Fine <==> io(Record(op)) == Done;
    if st == Crashed {
      return Died;
    }
    if st == Failed {
      r := UndoUnrecorded(w, store, disk, op, keys, io);
      FateUnrecorded(w, View(store, disk), r, op, expected, keys, io);
      ReportUnrecorded(w, View(store, disk), r, op, expected, keys, io);
      return;
    }
    r := CommitRecorded(w, v, store, disk, op, expected, keys, io);
  }

  lemma FateUnrecorded(w: World, u: World, r: DeleteResult, op: OpId, expected: nat, keys: seq<Key>, io: Io)
    requires Stages(w, op, keys, io) && io(Record(op)) != Done && io(Record(op)) != Halt && !r.Deleted?
    requires Strayed(w, u, op, LostBy(w, op, keys, io))
    ensures LeasedFate(w, u, r, op, expected, keys, io)
  {
    if LostBy(w, op, keys, io) == {} {
      NothingStrayed(w, u, op);
    }
  }

  lemma ReportUnrecorded(w: World, u: World, r: DeleteResult, op: OpId, expected: nat, keys: seq<Key>, io: Io)
    requires Stages(w, op, keys, io) && io(Record(op)) != Done && (NoHalt(io) ==> r != Died)
    requires r == Died || r == Rejected(NotRecorded(RollsBack(w, op, keys, io)))
    requires r != Died ==>
      && Undone(w, u, op, keys, io) && u.intents == w.intents
      && u.leases == if io(Abort(op)) == Done then WithoutLeases(w.leases, op) else w.leases
    requires r == Rejected(NotRecorded(true)) ==>
      u.source == w.source && u.trash == w.trash && u.markers == w.markers
    ensures LeasedReport(w, u, r, op, expected, keys, io)
  {
  }

  /** Staging failed: the orphan scan puts back what was moved, and then the leases are given back. */
  method UndoUnstaged(store: AppStore, disk: Disk, op: OpId, io: Io) returns (r: DeleteResult)
    requires Sound(View(store, disk)) && DeletesOnly(store.leases, op)
    modifies disk, store`leases
    ensures Kept(old(View(store, disk)), View(store, disk)) && Fewer(old(View(store, disk)), View(store, disk), io)
    ensures r == Died || r == Rejected(NotStaged(true)) || r == Rejected(NotStaged(false))
    ensures Placeable(old(View(store, disk))) && r != Died ==>
      r == Rejected(NotStaged(Scans(old(View(store, disk)), old(disk.folders), io)))
    ensures r == Rejected(NotStaged(true)) ==>
      disk.markers <= store.intents.Keys &&
      forall s <- disk.trash :: s in store.intents || Stray(old(View(store, disk)), s)
    ensures r != Died ==>
      store.leases == if io(Release(op)) == Done then WithoutLeases(old(store.leases), op) else old(store.leases)
    ensures NoHalt(io) ==> r != Died
  {
    ghost var w0 := View(store, disk);
    var st := RecoverOrphanMarkers(store, disk, io);
    if st == Crashed {
      return Died;
    }
    ghost var w1 := View(store, disk);
    var released := store.ReleaseOperationLeases(op, io(Release(op)));
    FewerLeasesKeepFate(w1, View(store, disk));
    KeptTwice(w0, w1, View(store, disk));
    return if released == Crashed then Died else Rejected(NotStaged(st == Fine));
  }

  method CommitRecorded(ghost w: World, ghost v: World, store: AppStore, disk: Disk, op: OpId, expected: nat,
                        keys: seq<Key>, io: Io)
    returns (r: DeleteResult)
    requires Sound(w) && Unplaced(w, op) && DeletesOnly(w.leases, op) && Stages(w, op, keys, io)
    requires forall s <- w.intents :: s.op != op
    requires Distinct(keys) && keys != [] && io(Record(op)) == Done
    requires Placed(w, v, op, Names(keys), Names(keys)) && View(store, disk) == RecordIntents(v, op, Names(keys))
    modifies disk, store
    ensures LeasedFate(w, View(store, disk), r, op, expected, keys, io)
    ensures LeasedReport(w, View(store, disk), r, op, expected, keys, io)
  {
    ghost var w' := RecordIntents(w, op, Names(keys));
    RecordPlaced(w, v, op, Names(keys));
    r := CommitStaged(w', store, disk, op, expected, keys, io);
    ThenSame(w, w', View(store, disk), Names(keys));
    ReportSinceRecord(w, View(store, disk), r, op, expected, keys, io);
  }

  lemma ReportSinceRecord(w: World, u: World, r: DeleteResult, op: OpId, expected: nat, keys: seq<Key>, io: Io)
    requires Stages(w, op, keys, io) && io(Record(op)) == Done && Distinct(keys)
    requires forall s <- w.intents :: s.op != op
    requires var w' := RecordIntents(w, op, Names(keys));
      && CommitReport(w', u, r, op, expected, keys, io)
      && (r.Deleted? && r.cleanupComplete ==> Purged(w', u, op, Names(keys)))
    ensures LeasedReport(w, u, r, op, expected, keys, io)
  {
    var w' := RecordIntents(w, op, Names(keys));
    SameEffects(w, w', op, keys, io);
    IntentsOf(w, op, Names(keys));
    if r != Died {
      assert StagedReport(w, u, r, op, expected, keys, io);
    }
  }

  lemma IntentsOf(w: World, op: OpId, keys: set<Key>)
    requires forall s <- w.intents :: s.op != op
    ensures var with := WithIntents(w.intents, op, keys);
      && WithoutIntents(with, op, Staged) == w.intents
      && (map s | s in with && s.op != op :: with[s]) == w.intents
  {
  }

  /** What the effects come to depends on where the directories of the batch are, and on nothing else. */
  lemma SameEffects(w: World, v: World, op: OpId, keys: seq<Key>, io: Io)
    requires w.source == v.source
    ensures Stages(w, op, keys, io) <==> Stages(v, op, keys, io)
    ensures RollsBack(w, op, keys, io) <==> RollsBack(v, op, keys, io)
    ensures LivesThrough(w, op, keys, io) <==> LivesThrough(v, op, keys, io)
    ensures CleansUp(w, op, keys, io) <==> CleansUp(v, op, keys, io)
    ensures forall u :: Undone(w, u, op, keys, io) <==> Undone(v, u, op, keys, io)
  {
    assert forall s :: StagesAt(w, s, io) <==> StagesAt(v, s, io);
    assert forall s :: RollsBackAt(w, s, io) <==> RollsBackAt(v, s, io);
    assert forall s :: Survives(w, s, io) <==> Survives(v, s, io);
  }

  /** The batch is one that reaches the disk, and the run strands one of its directories. */
  predicate Stranded(w: World, op: OpId, entries: seq<DeleteEntry>, io: Io) {
    entries != [] && Agree(entries) && Strands(w, op, FirstKeys(entries), io)
  }

  /** The batch gets its leases. */
  predicate Goes(w: World, op: OpId, entries: seq<DeleteEntry>, io: Io) {
    entries != [] && Agree(entries) && Granted(w, op, FirstKeys(entries), io)
  }

  /** Deletes a batch of entries under the fresh operation id `op`.
    *
    * At every crash point and under every I/O failure but one, recovery brings the state either to what it
    * would have made of it without the deletion, or to that without the batch.  The exception is exactly
    * `Stranded`: then exactly the directories that the rollback loses are lost to recovery, and lie whole in
    * the trash. */
  method DeleteEntries(store: AppStore, disk: Disk, op: OpId, expected: nat, entries: seq<DeleteEntry>, io: Io)
    returns (r: DeleteResult)
    requires Sound(View(store, disk)) && Fresh(View(store, disk), op)
    modifies disk, store
    ensures SameStrays(old(View(store, disk)), View(store, disk)) <==>
      !Stranded(old(View(store, disk)), op, entries, io)
    ensures Stranded(old(View(store, disk)), op, entries, io) ==>
      && !r.Deleted?
      && Strayed(old(View(store, disk)), View(store, disk), op,
                 LostBy(old(View(store, disk)), op, FirstKeys(entries), io))
    ensures !Stranded(old(View(store, disk)), op, entries, io) ==>
      || Kept(old(View(store, disk)), View(store, disk))
      || Gone(old(View(store, disk)), View(store, disk), Names(FirstKeys(entries)))
    ensures !Stranded(old(View(store, disk)), op, entries, io) && r.Rejected? ==>
      Kept(old(View(store, disk)), View(store, disk))
    ensures r.Deleted? ==>
      && Gone(old(View(store, disk)), View(store, disk), Names(FirstKeys(entries)))
      && expected == old(store.revision) && r.revision == store.revision
    ensures r.Deleted? && r.cleanupComplete ==>
      View(store, disk) == Without(old(View(store, disk)), Names(FirstKeys(entries)))
    ensures NoHalt(io) ==> r != Died
    ensures r == Rejected(EmptyBatch) <==> entries == []
    ensures (exists k :: r == Rejected(KeyClash(k))) <==>
      exists d, e | d in entries && e in entries && d.key == e.key :: d != e
    ensures io(TakeLease(op)) == Halt && entries != [] && Agree(entries) ==> r == Died
    ensures io(TakeLease(op)) != Halt ==>
      (r == Rejected(LeaseDenied) <==>
        entries != [] && Agree(entries) && !Granted(old(View(store, disk)), op, FirstKeys(entries), io))
    ensures r.Rejected? && (r.reason.EmptyBatch? || r.reason.KeyClash? || r.reason.LeaseDenied?) ==>
      View(store, disk) == old(View(store, disk))
    ensures r != Died && Goes(old(View(store, disk)), op, entries, io) ==>
      if Stages(old(View(store, disk)), op, FirstKeys(entries), io)
      then StagedReport(old(View(store, disk)), View(store, disk), r, op, expected, FirstKeys(entries), io)
      else UnstagedReport(old(View(store, disk)), View(store, disk), r, op, FirstKeys(entries))
    ensures r != Died && Goes(old(View(store, disk)), op, entries, io) &&
            !Stages(old(View(store, disk)), op, FirstKeys(entries), io) &&
            Placeable(old(View(store, disk))) &&
            Unstages(old(View(store, disk)), op, FirstKeys(entries), old(disk.folders), io) ==>
      r == Rejected(NotStaged(true))
    ensures r != Died && Goes(old(View(store, disk)), op, entries, io) ==>
      && store.intents == RecordsAfter(old(View(store, disk)), r, op, FirstKeys(entries), io)
      && store.leases == if Ends(r, op, io) then old(store.leases)
                         else WithLeases(old(store.leases), op, Names(FirstKeys(entries)))
    ensures Smooth(io) && Goes(old(View(store, disk)), op, entries, io) ==>
      r == if expected == old(store.revision) then Deleted(store.revision, true) else Rejected(NotCommitted(true))
    ensures r == Rejected(NotRecorded(true)) || r == Rejected(NotCommitted(true)) ==>
      disk.source == old(disk.source) && disk.trash == old(disk.trash) && disk.markers == old(disk.markers)
    ensures r == Rejected(NotStaged(true)) && Placeable(old(View(store, disk))) ==>
      && (forall k <- FirstKeys(entries) | k in old(disk.source) ::
           k in disk.source && disk.source[k] == old(disk.source)[k])
      && forall k :: Slot(op, k) !in disk.trash && Slot(op, k) !in disk.markers
    ensures forall k | entries != [] && Agree(entries) &&
                   LeftBehind(old(View(store, disk)), op, FirstKeys(entries), io, k) ::
      Slot(op, k) in disk.trash && Slot(op, k) !in store.intents && (r == Died || (r.Rejected? && r.reason.NotStaged?))
  {
    if entries == [] {
      return Rejected(EmptyBatch);
    }
    var batch := UniqueEntries(entries);
    if batch.Clash? {
      return Rejected(KeyClash(batch.key));
    }
    var keys := seq(|batch.entries|, i requires 0 <= i < |batch.entries| => batch.entries[i].key);
    assert keys == FirstKeys(entries);
    assert entries[0].key in keys;
    ghost var w := View(store, disk);
    r := DeleteUnique(store, disk, op, expected, keys, io);
    Answered(w, View(store, disk), r, op, expected, entries, io);
  }

  lemma Answered(w: World, u: World, r: DeleteResult, op: OpId, expected: nat, entries: seq<DeleteEntry>, io: Io)
    requires entries != [] && Agree(entries) && Answer(w, u, r, op, expected, FirstKeys(entries), io)
    ensures var keys := FirstKeys(entries);
      && (r != Died && Goes(w, op, entries, io) ==> GrantedReport(w, u, r, op, expected, keys, io))
      && (Smooth(io) && Goes(w, op, entries, io) ==>
           r == if expected == w.revision then Deleted(u.revision, true) else Rejected(NotCommitted(true)))
      && (r == Rejected(NotRecorded(true)) || r == Rejected(NotCommitted(true)) ==>
           u.source == w.source && u.trash == w.trash && u.markers == w.markers)
      && (r == Rejected(NotStaged(true)) && Placeable(w) ==> Restored(w, u, op, keys))
      && (forall k | LeftBehind(w, op, keys, io, k) ::
           Slot(op, k) in u.trash && Slot(op, k) !in u.intents && (r == Died || (r.Rejected? && r.reason.NotStaged?)))
  {
    if Smooth(io) {
      SmoothEffects(w, op, FirstKeys(entries), io);
    }
  }

  /** What becomes of a batch of distinct keys, in terms of the states before and after. */
  ghost predicate Answer(w: World, u: World, r: DeleteResult, op: OpId, expected: nat, keys: seq<Key>, io: Io) {
    && (SameStrays(w, u) <==> !Strands(w, op, keys, io))
    && (Strands(w, op, keys, io) ==> !r.Deleted? && Strayed(w, u, op, LostBy(w, op, keys, io)))
    && (!Strands(w, op, keys, io) ==> Kept(w, u) || Gone(w, u, Names(keys)))
    && (!Strands(w, op, keys, io) && r.Rejected? ==> Kept(w, u))
    && (r.Deleted? ==> Gone(w, u, Names(keys)) && expected == w.revision && r.revision == u.revision)
    && (r.Deleted? && r.cleanupComplete ==> u == Without(w, Names(keys)))
    && Report(w, u, r, op, expected, keys, io)
  }

  /** What the caller hears, and when. */
  ghost predicate Report(w: World, u: World, r: DeleteResult, op: OpId, expected: nat, keys: seq<Key>, io: Io) {
    && (r.Rejected? ==> !r.reason.EmptyBatch? && !r.reason.KeyClash?)
    && (NoHalt(io) ==> r != Died)
    && (io(TakeLease(op)) != Halt ==> (r == Rejected(LeaseDenied) <==> !Granted(w, op, keys, io)))
    && (io(TakeLease(op)) == Halt ==> r == Died)
    && (r == Rejected(LeaseDenied) ==> u == w)
    && (r != Died && Granted(w, op, keys, io) ==> GrantedReport(w, u, r, op, expected, keys, io))
    && forall k | LeftBehind(w, op, keys, io, k) ::
         Slot(op, k) in u.trash && Slot(op, k) !in u.intents && (r == Died || (r.Rejected? && r.reason.NotStaged?))
  }

  ghost predicate GrantedReport(w: World, u: World, r: DeleteResult, op: OpId, expected: nat, keys: seq<Key>, io: Io) {
    && (if Stages(w, op, keys, io) then StagedReport(w, u, r, op, expected, keys, io)
        else UnstagedReport(w, u, r, op, keys))
    && u.intents == RecordsAfter(w, r, op, keys, io)
    && u.leases == if Ends(r, op, io) then w.leases else WithLeases(w.leases, op, Names(keys))
  }

  method DeleteUnique(store: AppStore, disk: Disk, op: OpId, expected: nat, keys: seq<Key>, io: Io)
    returns (r: DeleteResult)
    requires Sound(View(store, disk)) && Fresh(View(store, disk), op)
    requires Distinct(keys) && keys != []
    modifies disk, store
    ensures Answer(old(View(store, disk)), View(store, disk), r, op, expected, keys, io)
    ensures Granted(old(View(store, disk)), op, keys, io) && !Stages(old(View(store, disk)), op, keys, io) &&
            Placeable(old(View(store, disk))) &&
            Unstages(old(View(store, disk)), op, keys, old(disk.folders), io) ==>
      r == Died || r == Rejected(NotStaged(true))
  {
    ghost var w := View(store, disk);
    var st, holder := store.AcquireOperationLeases(op, Names(keys), io(TakeLease(op)));
    GrantedWhenFree(w, op, keys, holder);
    if st != Fine {
      r := if st == Crashed then Died else Rejected(LeaseDenied);
      return;
    }
    LeaseTaken(w, op, keys);
    SameEffects(w, TakeLeases(w, op, Names(keys)), op, keys, io);
    SameScan(w, TakeLeases(w, op, Names(keys)), op, keys, disk.folders, io);
    r := DeleteLeased(View(store, disk), store, disk, op, expected, keys, io);
    FateSinceLease(w, View(store, disk), r, op, expected, keys, io);
    ReportSinceLease(w, View(store, disk), r, op, expected, keys, io);
  }

  lemma SameScan(w: World, v: World, op: OpId, keys: seq<Key>, folders: set<OpId>, io: Io)
    requires v == w.(leases := v.leases)
    ensures Unstages(w, op, keys, folders, io) <==> Unstages(v, op, keys, folders, io)
  {
    assert forall s :: GoesBack(w, s, io) <==> GoesBack(v, s, io);
    assert forall other :: Folder(w, folders, other) <==> Folder(v, folders, other);
  }

  lemma GrantedWhenFree(w: World, op: OpId, keys: seq<Key>, holder: set<Key>)
    requires Fresh(w, op)
    requires holder == set k | k in Names(keys) && k in w.leases && w.leases[k] != Lease(op, Delete)
    ensures holder == {} <==> forall k <- keys :: k !in w.leases
    ensures holder == {} <==> Names(keys) !! w.leases.Keys
  {
    assert forall k <- keys | k in w.leases :: k in holder;
  }

  /** Taking the leases of a fresh operation prepares it, and moves nothing. */
  lemma LeaseTaken(w: World, op: OpId, keys: seq<Key>)
    requires Sound(w) && Fresh(w, op) && Names(keys) !! w.leases.Keys
    ensures var w1 := TakeLeases(w, op, Names(keys));
      Kept(w, w1) && Unplaced(w1, op) && DeletesOnly(w1.leases, op) && WithoutLeases(w1.leases, op) == w.leases
  {
    TakeLeasesKeepsFate(w, op, Names(keys));
  }

  /** Whether staging succeeds, and what the rollback would lose, does not depend on the leases. */
  lemma SameStaging(w: World, v: World, op: OpId, keys: seq<Key>, io: Io)
    requires w.source == v.source
    ensures Stages(w, op, keys, io) <==> Stages(v, op, keys, io)
    ensures LostBy(w, op, keys, io) == LostBy(v, op, keys, io)
    ensures forall i: nat :: MovesOut(w, op, keys, io, i) <==> MovesOut(v, op, keys, io, i)
  {
    assert forall s :: Loses(w, s, io) <==> Loses(v, s, io);
    assert forall n: nat :: SurvivesFrom(w, op, keys, io, n) <==> SurvivesFrom(v, op, keys, io, n);
    assert forall s :: StagesAt(w, s, io) <==> StagesAt(v, s, io);
  }

  /** What has gone astray of a fresh operation was not astray before. */
  lemma StrayIsNew(w: World, u: World, op: OpId, lost: set<Key>)
    requires Fresh(w, op) && Astray(w, u, op, lost) && exists k <- lost :: k in w.source
    ensures !SameStrays(w, u)
  {
    var k :| k in lost && k in w.source;
    assert Stray(u, Slot(op, k)) && !Stray(w, Slot(op, k));
  }

  lemma FateSinceLease(w: World, u: World, r: DeleteResult, op: OpId, expected: nat, keys: seq<Key>, io: Io)
    requires Sound(w) && Fresh(w, op) && Names(keys) !! w.leases.Keys && Granted(w, op, keys, io)
    requires LeasedFate(TakeLeases(w, op, Names(keys)), u, r, op, expected, keys, io)
    ensures SameStrays(w, u) <==> !Strands(w, op, keys, io)
    ensures Strands(w, op, keys, io) ==> !r.Deleted? && Strayed(w, u, op, LostBy(w, op, keys, io))
    ensures !Strands(w, op, keys, io) ==> Kept(w, u) || Gone(w, u, Names(keys))
    ensures !Strands(w, op, keys, io) && r.Rejected? ==> Kept(w, u)
    ensures r.Deleted? ==> Gone(w, u, Names(keys)) && expected == w.revision && r.revision == u.revision
    ensures r.Deleted? && r.cleanupComplete ==> u == Without(w, Names(keys))
  {
    var w1 := TakeLeases(w, op, Names(keys));
    LeaseTaken(w, op, keys);
    SameStaging(w, w1, op, keys, io);
    ThenSame(w, w1, u, Names(keys));
    if Strands(w, op, keys, io) {
      StrayIsNew(w, u, op, LostBy(w, op, keys, io));
    }
    if r.Deleted? && r.cleanupComplete {
      PurgedIsWithout(w, u, op, Names(keys));
    }
  }

  lemma ReportSinceLease(w: World, u: World, r: DeleteResult, op: OpId, expected: nat, keys: seq<Key>, io: Io)
    requires Sound(w) && Fresh(w, op) && Names(keys) !! w.leases.Keys && Granted(w, op, keys, io)
    requires LeasedReport(TakeLeases(w, op, Names(keys)), u, r, op, expected, keys, io)
    ensures Report(w, u, r, op, expected, keys, io)
  {
    var w1 := TakeLeases(w, op, Names(keys));
    LeaseTaken(w, op, keys);
    SameStaging(w, w1, op, keys, io);
    if r != Died {
      SameReport(w, w1, u, r, op, expected, keys, io);
      assert GrantedReport(w, u, r, op, expected, keys, io);
    }
    StaysLeft(w, w1, u, r, op, expected, keys, io);
  }

  lemma StaysLeft(w: World, v: World, u: World, r: DeleteResult, op: OpId, expected: nat, keys: seq<Key>, io: Io)
    requires Fresh(w, op) && v == w.(leases := v.leases) && LeasedReport(v, u, r, op, expected, keys, io)
    ensures forall k | LeftBehind(w, op, keys, io, k) ::
      Slot(op, k) in u.trash && Slot(op, k) !in u.intents && (r == Died || (r.Rejected? && r.reason.NotStaged?))
  {
    SameStaging(w, v, op, keys, io);
  }

  lemma SameReport(w: World, v: World, u: World, r: DeleteResult, op: OpId, expected: nat, keys: seq<Key>, io: Io)
    requires v == w.(leases := v.leases)
    ensures Stages(w, op, keys, io) <==> Stages(v, op, keys, io)
    ensures StagedReport(v, u, r, op, expected, keys, io) ==> StagedReport(w, u, r, op, expected, keys, io)
    ensures UnstagedReport(v, u, r, op, keys) ==> UnstagedReport(w, u, r, op, keys)
    ensures RecordsAfter(v, r, op, keys, io) == RecordsAfter(w, r, op, keys, io)
  {
    SameEffects(w, v, op, keys, io);
    assert forall s :: Stray(w, s) <==> Stray(v, s);
    assert forall s :: Restorable(w, s) <==> Restorable(v, s);
  }

  /** When nothing goes wrong, nothing of this goes wrong. */
  lemma SmoothEffects(w: World, op: OpId, keys: seq<Key>, io: Io)
    requires Smooth(io)
    ensures Stages(w, op, keys, io) && RollsBack(w, op, keys, io) && CleansUp(w, op, keys, io)
  {
  }
}
