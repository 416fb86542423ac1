/** Deleting library entries and recovering interrupted deletions, over the file system and the
  * application store.  Every effect asks `io` for its verdict, so that a statement about all `io` is a
  * statement about every crash point and every I/O failure.
  */
module LibraryDelete {
  import opened DeleteWorld

  /** What becomes of one effect. */
  datatype Verdict =
    | Done      // it takes place
    | Refused   // it fails without taking place
    | Late      // it takes place, and then an error is reported (a failing directory sync)
    | Halt      // the process dies before it

  datatype Effect =
    | MakeTrash(op: OpId)
    | PutMarker(slot: Slot)
    | Out(slot: Slot)
    | Back(slot: Slot)
    | Unmark(slot: Slot)
    | Clear(slot: Slot)
    | Sweep(op: OpId)
    | Read(site: nat)
    | TakeLease(op: OpId)
    | Record(op: OpId)
    | Cas(op: OpId)
    | Abort(op: OpId)
    | Finalize(op: OpId)
    | Release(op: OpId)

  type Io = Effect -> Verdict

  /** Nothing goes wrong with any effect. */
  ghost predicate Smooth(io: Io) {
    forall e :: io(e) == Done
  }

  /** The process does not die. */
  ghost predicate NoHalt(io: Io) {
    forall e :: io(e) != Halt
  }

  datatype Status = Fine | Failed | Crashed

  function StatusOf(v: Verdict): Status {
    match v
    case Done => Fine
    case Halt => Crashed
    case _ => Failed
  }

  /** Whether the effect itself takes place. */
  predicate Happens(v: Verdict) {
    v == Done || v == Late
  }

  /** The library root: session directories, and per operation a trash directory with payloads and
    * marker files. */
  class Disk {
    var source: map<Key, Tree>
    var trash: map<Slot, Tree>
    var markers: set<Slot>

    /** The trash directories of operations, which may be empty. */
    var folders: set<OpId>

    predicate Inhabited(op: OpId)
      reads this
    {
      (exists s <- trash :: s.op == op) || (exists s <- markers :: s.op == op)
    }

    method MakeFolder(op: OpId, v: Verdict) returns (st: Status)
      modifies this`folders
      ensures folders == if Happens(v) then old(folders) + {op} else old(folders)
      ensures st == StatusOf(v)
    {
      if Happens(v) {
        folders := folders + {op};
      }
      st := StatusOf(v);
    }

    /** A directory that is not empty is left, and is not an error. */
    method SweepFolder(op: OpId, v: Verdict) returns (st: Status)
      modifies this`folders
      ensures folders == if Happens(v) && !Inhabited(op) then old(folders) - {op} else old(folders)
      ensures st == StatusOf(v)
    {
      if Happens(v) && !Inhabited(op) {
        folders := folders - {op};
      }
      st := StatusOf(v);
    }

    method WriteMarker(s: Slot, v: Verdict) returns (st: Status)
      modifies this`markers
      ensures source == old(source) && trash == old(trash)
      ensures markers == if Happens(v) then old(markers) + {s} else old(markers)
      ensures st == StatusOf(v)
    {
      if Happens(v) {
        markers := markers + {s};
      }
      st := StatusOf(v);
    }

    /** A marker that is already gone is not an error. */
    method RemoveMarkerIfExists(s: Slot, v: Verdict) returns (st: Status)
      modifies this`markers
      ensures source == old(source) && trash == old(trash)
      ensures markers == if Happens(v) then old(markers) - {s} else old(markers)
      ensures st == if v != Halt && s !in old(markers) then Fine else StatusOf(v)
    {
      st := if v != Halt && s !in markers then Fine else StatusOf(v);
      if Happens(v) {
        markers := markers - {s};
      }
    }

    method MoveOut(s: Slot, v: Verdict) returns (st: Status)
      requires s.key in source
      modifies this`source, this`trash
      ensures markers == old(markers)
      ensures Happens(v) ==> source == old(source) - {s.key} && trash == old(trash[s := source[s.key]])
      ensures !Happens(v) ==> source == old(source) && trash == old(trash)
      ensures st == StatusOf(v)
    {
      if Happens(v) {
        trash := trash[s := source[s.key]];
        source := source - {s.key};
      }
      st := StatusOf(v);
    }

    method MoveBack(s: Slot, v: Verdict) returns (st: Status)
      requires s in trash && s.key !in source
      modifies this`source, this`trash
      ensures markers == old(markers)
      ensures Happens(v) ==> source == old(source[s.key := trash[s]]) && trash == old(trash) - {s}
      ensures !Happens(v) ==> source == old(source) && trash == old(trash)
      ensures st == StatusOf(v)
    {
      if Happens(v) {
        source := source[s.key := trash[s]];
        trash := trash - {s};
      }
      st := StatusOf(v);
    }

    /** An absent payload is not an error; an interrupted removal leaves a torn one. */
    method RemoveDirIfExists(s: Slot, v: Verdict) returns (st: Status)
      modifies this`trash
      ensures source == old(source) && markers == old(markers)
      ensures s !in old(trash) ==> trash == old(trash)
      ensures s in old(trash) ==> trash == if Happens(v) then old(trash) - {s} else old(trash)[s := Torn]
      ensures st == if v != Halt && s !in old(trash) then Fine else StatusOf(v)
    {
      st := if v != Halt && s !in trash then Fine else StatusOf(v);
      if s in trash {
        trash := if Happens(v) then trash - {s} else trash[s := Torn];
      }
    }
  }

  /** The tables of the application store that deletions use; every method is one transaction. */
  class AppStore {
    var rows: map<Key, nat>
    var revision: nat
    var leases: map<Key, Lease>
    var intents: map<Slot, Phase>

    /** Claims all keys or none; `holder` is a lease of somebody else that is in the way. */
    method AcquireOperationLeases(op: OpId, keys: set<Key>, v: Verdict)
      returns (st: Status, ghost holder: set<Key>)
      modifies this`leases
      ensures holder == set k | k in keys && k in old(leases) && old(leases)[k] != Lease(op, Delete)
      ensures leases == if v == Done && holder == {} then WithLeases(old(leases), op, keys) else old(leases)
      ensures st == if v == Done then (if holder == {} then Fine else Failed)
                    else if v == Halt then Crashed else Failed
    {
      holder := set k | k in keys && k in leases && leases[k] != Lease(op, Delete);
      if v != Done {
        return if v == Halt then Crashed else Failed, holder;
      }
      var blocked := false;
      var granted := leases;
      var todo := keys;
      while todo != {} && !blocked
        invariant todo <= keys
        invariant blocked <==> holder - todo != {}
        invariant !blocked ==> granted == WithLeases(leases, op, keys - todo)
        decreases todo
      {
        var k :| k in todo;
        if k in leases && leases[k] != Lease(op, Delete) {
          blocked := true;
        } else {
          granted := granted[k := Lease(op, Delete)];
        }
        todo := todo - {k};
      }
      if blocked {
        return Failed, holder;
      }
      leases := granted;
      return Fine, holder;
    }

    method ReleaseOperationLeases(op: OpId, v: Verdict) returns (st: Status)
      modifies this`leases
      ensures leases == if v == Done then WithoutLeases(old(leases), op) else old(leases)
      ensures st == StatusOf(v)
    {
      if v == Done {
        leases := WithoutLeases(leases, op);
      }
      st := StatusOf(v);
    }

    /** Replaying a staged intent is idempotent; contradicting a committed one is a conflict. */
    method RecordLibraryDeleteIntents(op: OpId, keys: set<Key>, v: Verdict) returns (st: Status)
      modifies this`intents
      ensures st == Fine <==>
        v == Done && keys != {} && forall s <- Slots(op, keys) | s in old(intents) :: old(intents)[s] == Staged
      ensures st == Crashed <==> v == Halt
      ensures intents == if st == Fine then WithIntents(old(intents), op, keys) else old(intents)
    {
      if v != Done || keys == {} || exists s <- Slots(op, keys) :: s in intents && intents[s] != Staged {
        return if v == Halt then Crashed else Failed;
      }
      intents := WithIntents(intents, op, keys);
      return Fine;
    }

    /** The linearization point of a deletion.  Replaying a commit changes nothing, and a batch whose rows
      * are all gone already commits without a new revision. */
    method CommitLibraryDeleteIfRevision(expected: nat, op: OpId, keys: set<Key>, v: Verdict)
      returns (st: Status, committed: nat)
      modifies this`rows, this`revision, this`intents
      ensures st == Crashed <==> v == Halt
      ensures st == Fine <==>
        && v == Done && keys != {}
        && Slots(op, keys) <= old(intents.Keys)
        && (expected == old(revision) || forall s <- Slots(op, keys) :: old(intents)[s] == Committed)
      ensures st == Fine && (exists s <- Slots(op, keys) :: old(intents)[s] == Staged) ==>
        && rows == old(rows) - keys
        && revision == (if old(rows.Keys) !! keys then old(revision) else old(revision) + 1)
        && intents == CommittedIntents(old(intents), op)
      ensures st == Fine ==> committed == revision
      ensures st != Fine || (forall s <- Slots(op, keys) :: old(intents)[s] == Committed) ==>
        rows == old(rows) && revision == old(revision) && intents == old(intents)
    {
      committed := revision;
      if v != Done || keys == {} || !(Slots(op, keys) <= intents.Keys) {
        return if v == Halt then Crashed else Failed, committed;
      }
      if forall s <- Slots(op, keys) :: intents[s] == Committed {
        return Fine, committed;
      }
      if expected != revision {
        return Failed, committed;
      }
      if !(rows.Keys !! keys) {
        committed := expected + 1;
      }
      rows, revision := rows - keys, committed;
      intents := CommittedIntents(intents, op);
      return Fine, committed;
    }

    method AbortLibraryDelete(op: OpId, v: Verdict) returns (st: Status)
      modifies this`intents, this`leases
      ensures intents == if v == Done then WithoutIntents(old(intents), op, Staged) else old(intents)
      ensures leases == if v == Done then WithoutLeases(old(leases), op) else old(leases)
      ensures st == StatusOf(v)
    {
      if v == Done {
        intents := WithoutIntents(intents, op, Staged);
        leases := WithoutLeases(leases, op);
      }
      st := StatusOf(v);
    }

    method FinalizeLibraryDelete(op: OpId, v: Verdict) returns (st: Status)
      modifies this`intents, this`leases
      ensures intents == if v == Done then WithoutIntents(old(intents), op, Committed) else old(intents)
      ensures leases == if v == Done then WithoutLeases(old(leases), op) else old(leases)
      ensures st == StatusOf(v)
    {
      if v == Done {
        intents := WithoutIntents(intents, op, Committed);
        leases := WithoutLeases(leases, op);
      }
      st := StatusOf(v);
    }
  }

  function View(store: AppStore, disk: Disk): World
    reads store, disk
  {
    World(disk.source, disk.trash, disk.markers, store.rows, store.revision, store.leases, store.intents)
  }

  /* ------------------------------ recovery ------------------------------ */

  /** The orphan scan deals with this marker: its payload goes back, if there is one, and then it goes. */
  predicate GoesBack(w: World, s: Slot, io: Io) {
    (s in w.trash ==> io(Back(s)) == Done) && io(Unmark(s)) == Done
  }

  /** The operation directories of the trash. */
  ghost predicate Folder(w: World, folders: set<OpId>, op: OpId) {
    op in folders || (exists s <- w.markers :: s.op == op) || (exists s <- w.trash :: s.op == op)
  }

  /** Every effect that the orphan scan comes to takes place. */
  ghost predicate Scans(w: World, folders: set<OpId>, io: Io) {
    && io(Read(1)) == Done
    && (forall s <- w.markers | s !in w.intents :: GoesBack(w, s, io))
    && (forall op | Folder(w, folders, op) :: io(Sweep(op)) == Done)
  }

  /** Puts back every payload that has a marker but no intent, removes the marker, and sweeps the directories
    * of operations that are empty.  If every payload has a free place to go to, it comes to its end exactly if
    * every effect that it comes to takes place. */
  method RecoverOrphanMarkers(store: AppStore, disk: Disk, io: Io) returns (st: Status)
    requires Sound(View(store, disk))
    modifies disk
    ensures Kept(old(View(store, disk)), View(store, disk))
    ensures Fewer(old(View(store, disk)), View(store, disk), io)
    ensures st == Fine ==> disk.markers <= store.intents.Keys
    ensures st == Fine ==> forall s <- disk.trash :: s in store.intents || Stray(old(View(store, disk)), s)
    ensures st == Fine ==> forall op <- disk.folders :: disk.Inhabited(op)
    ensures old(disk.markers) == {} ==> View(store, disk) == old(View(store, disk))
    ensures Placeable(old(View(store, disk))) ==>
      (st == Fine <==> Scans(old(View(store, disk)), old(disk.folders), io))
    ensures NoHalt(io) ==> st != Crashed
  {
    if io(Read(1)) != Done {
      return StatusOf(io(Read(1)));
    }
    ghost var w0 := View(store, disk);
    ghost var folders := disk.folders;
    st := RecoverFolders(store, disk, io);
    ScansFolders(w0, folders, io);
    assert forall s <- disk.trash :: Stray(w0, s) <==> Stray(View(store, disk), s);
  }

  lemma ScansFolders(w: World, folders: set<OpId>, io: Io)
    ensures Scans(w, folders, io) <==>
      io(Read(1)) == Done && forall op | Folder(w, folders, op) :: FolderGoes(w, op, io)
  {
    forall s | s in w.markers && s !in w.intents && Folder(w, folders, s.op) && FolderGoes(w, s.op, io)
      ensures GoesBack(w, s, io)
    {
    }
    assert forall s <- w.markers :: Folder(w, folders, s.op);
  }

  /** The operation directories, in whatever order the trash lists them. */
  method RecoverFolders(store: AppStore, disk: Disk, io: Io) returns (st: Status)
    requires Sound(View(store, disk))
    modifies disk
    ensures Kept(old(View(store, disk)), View(store, disk))
    ensures Fewer(old(View(store, disk)), View(store, disk), io)
    ensures st == Fine ==> disk.markers <= store.intents.Keys && forall op <- disk.folders :: disk.Inhabited(op)
    ensures old(disk.markers) == {} ==> View(store, disk) == old(View(store, disk))
    ensures st == Fine ==> forall op | Folder(old(View(store, disk)), old(disk.folders), op) ::
        FolderGoes(old(View(store, disk)), op, io)
    ensures Placeable(old(View(store, disk))) && st != Fine ==>
      exists op :: Folder(old(View(store, disk)), old(disk.folders), op) &&
        !FolderGoes(old(View(store, disk)), op, io)
    ensures NoHalt(io) ==> st != Crashed
  {
    ghost var w0 := View(store, disk);
    var dirs := disk.folders + (set s | s in disk.markers :: s.op) + (set s | s in disk.trash :: s.op);
    assert forall op :: op in dirs <==> Folder(w0, disk.folders, op);
    while dirs != {}
      invariant FoldersDone(w0, View(store, disk), old(disk.folders), dirs, io)
      invariant forall op <- disk.folders :: op in dirs || disk.Inhabited(op)
      invariant old(disk.markers) == {} ==> View(store, disk) == old(View(store, disk))
      decreases dirs
    {
      ghost var w := View(store, disk);
      var op :| op in dirs;
      st := RecoverFolder(store, disk, op, io);
      FolderDone(w0, w, View(store, disk), old(disk.folders), dirs, op, st == Fine, io);
      if st != Fine {
        return;
      }
      dirs := dirs - {op};
    }
    return Fine;
  }

  /** The operation directories other than those of `dirs` have been dealt with. */
  ghost predicate FoldersDone(w: World, v: World, folders: set<OpId>, dirs: set<OpId>, io: Io) {
    && Kept(w, v) && Fewer(w, v, io)
    && (forall op <- dirs :: Folder(w, folders, op) && SameFolder(w, v, op))
    && (forall op | Folder(w, folders, op) && op !in dirs :: FolderGoes(w, op, io))
    && (forall s <- v.markers :: s.op in dirs || s in w.intents)
  }

  lemma FolderDone(w: World, v: World, u: World, folders: set<OpId>, dirs: set<OpId>, op: OpId, fine: bool, io: Io)
    requires FoldersDone(w, v, folders, dirs, io) && op in dirs
    requires Kept(v, u) && Shrunk(v, u, op, io) && u.intents == v.intents
    requires fine ==> forall s <- u.markers :: s.op == op ==> s in u.intents
    requires fine ==> FolderGoes(v, op, io)
    requires Placeable(v) && FolderGoes(v, op, io) ==> fine
    ensures Kept(w, u) && Fewer(w, u, io)
    ensures fine ==> FoldersDone(w, u, folders, dirs - {op}, io)
    ensures Placeable(w) && !fine ==> Folder(w, folders, op) && !FolderGoes(w, op, io)
  {
    KeptTwice(w, v, u);
    FewerTwice(w, v, u, io);
    SameFolderGoes(w, v, op, io);
  }

  /** Every effect that the scan comes to in one operation directory takes place. */
  ghost predicate FolderGoes(w: World, op: OpId, io: Io) {
    (forall s <- w.markers | s.op == op && s !in w.intents :: GoesBack(w, s, io)) && io(Sweep(op)) == Done
  }

  /** Markers and payloads of `op` are as they were. */
  ghost predicate SameFolder(w: World, v: World, op: OpId) {
    && v.intents == w.intents
    && forall s: Slot | s.op == op :: (s in w.markers <==> s in v.markers) && (s in w.trash <==> s in v.trash)
  }

  lemma SameFolderGoes(w: World, v: World, op: OpId, io: Io)
    requires SameFolder(w, v, op)
    ensures FolderGoes(w, op, io) <==> FolderGoes(v, op, io)
  {
    assert forall s: Slot | s.op == op :: GoesBack(w, s, io) <==> GoesBack(v, s, io);
  }

  /** One operation directory: its markers, and then the directory itself if it is empty. */
  method RecoverFolder(store: AppStore, disk: Disk, op: OpId, io: Io) returns (st: Status)
    requires Sound(View(store, disk))
    modifies disk
    ensures Kept(old(View(store, disk)), View(store, disk))
    ensures Shrunk(old(View(store, disk)), View(store, disk), op, io)
    ensures st == Fine ==> forall s <- disk.markers :: s.op == op ==> s in store.intents
    ensures st == Fine ==> op !in disk.folders || disk.Inhabited(op)
    ensures disk.folders <= old(disk.folders)
    ensures forall other | other != op && old(disk.Inhabited(other)) :: disk.Inhabited(other)
    ensures old(disk.markers) == {} ==> View(store, disk) == old(View(store, disk))
    ensures st == Fine ==> FolderGoes(old(View(store, disk)), op, io)
    ensures Placeable(old(View(store, disk))) && FolderGoes(old(View(store, disk)), op, io) ==> st == Fine
    ensures NoHalt(io) ==> st != Crashed
  {
    st := RecoverMarkersOf(store, disk, op, io);
    if st == Fine {
      st := disk.SweepFolder(op, io(Sweep(op)));
    }
  }

  /** Payloads and markers of other operations are as they were, and of `op` only some have gone. */
  ghost predicate Shrunk(w: World, v: World, op: OpId, io: Io) {
    && Fewer(w, v, io)
    && (forall s <- w.trash | s.op != op :: s in v.trash)
    && (forall s <- w.markers | s.op != op :: s in v.markers)
  }

  /** Some markers may have gone, and some payloads that could be renamed. */
  ghost predicate Fewer(w: World, v: World, io: Io) {
    && v.markers <= w.markers && v.trash.Keys <= w.trash.Keys
    && forall s <- w.trash | !Happens(io(Back(s))) :: s in v.trash
  }

  lemma FewerTwice(w: World, v: World, u: World, io: Io)
    requires Fewer(w, v, io) && Fewer(v, u, io)
    ensures Fewer(w, u, io)
  {
  }

  lemma ShrunkMore(w: World, v: World, u: World, s: Slot, io: Io)
    requires Shrunk(w, v, s.op, io)
    requires u.markers == v.markers || u.markers == v.markers - {s}
    requires u.trash == v.trash || (Happens(io(Back(s))) && u.trash == v.trash - {s})
    ensures Shrunk(w, u, s.op, io)
  {
  }

  /** The markers of one operation directory, in whatever order the directory lists them. */
  method RecoverMarkersOf(store: AppStore, disk: Disk, op: OpId, io: Io) returns (st: Status)
    requires Sound(View(store, disk))
    modifies disk`source, disk`trash, disk`markers
    ensures Kept(old(View(store, disk)), View(store, disk))
    ensures Shrunk(old(View(store, disk)), View(store, disk), op, io)
    ensures st == Fine ==> forall s <- disk.markers :: s.op == op ==> s in store.intents
    ensures old(disk.markers) == {} ==> View(store, disk) == old(View(store, disk))
    ensures st == Fine ==>
      forall s <- old(disk.markers) | s.op == op && s !in store.intents :: GoesBack(old(View(store, disk)), s, io)
    ensures Placeable(old(View(store, disk))) && st != Fine ==>
      exists s <- old(disk.markers) :: s.op == op && s !in store.intents && !GoesBack(old(View(store, disk)), s, io)
    ensures NoHalt(io) ==> st != Crashed
  {
    ghost var w0 := View(store, disk);
    var todo := set s | s in disk.markers && s.op == op;
    while todo != {}
      invariant MarkersDone(w0, View(store, disk), op, todo, io)
      invariant old(disk.markers) == {} ==> todo == {} && View(store, disk) == w0
      decreases todo
    {
      var s :| s in todo;
      if s !in store.intents {
        ghost var w := View(store, disk);
        st := RecoverMarker(store, disk, s, io);
        MarkerDone(w0, w, View(store, disk), todo, s, st == Fine, io);
        if st != Fine {
          return;
        }
      }
      todo := todo - {s};
    }
    return Fine;
  }

  /** The markers of `op` other than those of `todo` have been dealt with. */
  ghost predicate MarkersDone(w: World, v: World, op: OpId, todo: set<Slot>, io: Io) {
    && Kept(w, v) && Shrunk(w, v, op, io) && v.intents == w.intents
    && todo <= v.markers
    && (forall s <- todo :: s.op == op && (s in v.trash <==> s in w.trash))
    && (forall s <- v.markers | s.op == op :: s in todo || s in w.intents)
    && (forall s <- w.markers | s.op == op && s !in w.intents :: s in todo || GoesBack(w, s, io))
  }

  lemma MarkerDone(w: World, v: World, u: World, todo: set<Slot>, s: Slot, fine: bool, io: Io)
    requires MarkersDone(w, v, s.op, todo, io) && s in todo && s !in w.intents
    requires Kept(v, u) && u.intents == v.intents
    requires u.markers == v.markers || u.markers == v.markers - {s}
    requires u.trash == v.trash || (Happens(io(Back(s))) && u.trash == v.trash - {s})
    requires fine ==> s !in u.markers && GoesBack(v, s, io)
    requires Placeable(v) && GoesBack(v, s, io) ==> fine
    ensures Kept(w, u) && Shrunk(w, u, s.op, io)
    ensures fine ==> MarkersDone(w, u, s.op, todo - {s}, io)
    ensures Placeable(w) && !fine ==> s in w.markers && !GoesBack(w, s, io)
  {
    KeptTwice(w, v, u);
    ShrunkMore(w, v, u, s, io);
    assert GoesBack(v, s, io) <==> GoesBack(w, s, io);
  }

  /** A marker without an intent: the payload goes back, and then the marker goes. */
  method RecoverMarker(store: AppStore, disk: Disk, s: Slot, io: Io) returns (st: Status)
    requires Sound(View(store, disk)) && s in disk.markers && s !in store.intents
    modifies disk`source, disk`trash, disk`markers
    ensures Kept(old(View(store, disk)), View(store, disk))
    ensures disk.markers == old(disk.markers) || disk.markers == old(disk.markers) - {s}
    ensures st == Fine ==> s !in disk.markers
    ensures disk.trash == old(disk.trash) || (Happens(io(Back(s))) && disk.trash == old(disk.trash) - {s})
    ensures st == Fine ==> GoesBack(old(View(store, disk)), s, io)
    ensures Placeable(old(View(store, disk))) && GoesBack(old(View(store, disk)), s, io) ==> st == Fine
    ensures NoHalt(io) ==> st != Crashed
  {
    ghost var w0 := View(store, disk);
    st := PutBack(store, disk, s, io);
    if st == Fine {
      ghost var w := View(store, disk);
      DropMarkerKeepsFate(w, s);
      st := disk.RemoveMarkerIfExists(s, io(Unmark(s)));
      KeptTwice(w0, w, View(store, disk));
    }
  }

  /** Restores one payload, refusing to overwrite a directory at its source. */
  method PutBack(store: AppStore, disk: Disk, s: Slot, io: Io) returns (st: Status)
    requires Sound(View(store, disk)) && Recorded(View(store, disk), s) && !IsCommitted(View(store, disk), s)
    modifies disk`source, disk`trash
    ensures Kept(old(View(store, disk)), View(store, disk))
    ensures disk.trash == old(disk.trash) || disk.trash == old(disk.trash) - {s}
    ensures s in disk.trash <==> s in old(disk.trash) && (s.key in old(disk.source) || !Happens(io(Back(s))))
    ensures disk.source == if s in old(disk.trash) && s !in disk.trash then old(disk.source[s.key := disk.trash[s]])
                           else old(disk.source)
    ensures st == Fine <==> s !in old(disk.trash) || (s.key !in old(disk.source) && io(Back(s)) == Done)
    ensures Placeable(old(View(store, disk))) ==> (st == Fine <==> s !in old(disk.trash) || io(Back(s)) == Done)
    ensures NoHalt(io) ==> st != Crashed
  {
    if s !in disk.trash {
      return Fine;
    }
    if s.key in disk.source {
      assert Restorable(View(store, disk), s);
      return Failed;
    }
    assert Restorable(View(store, disk), s);
    MoveBackKeepsFate(View(store, disk), s);
    st := disk.MoveBack(s, io(Back(s)));
  }

  /** Every effect takes place that comes up in clearing away a committed entry. */
  predicate ClearsAway(w: World, s: Slot, io: Io) {
    && (if s in w.trash then io(Clear(s)) == Done else io(Clear(s)) != Halt)
    && (if s in w.markers then io(Unmark(s)) == Done else io(Unmark(s)) != Halt)
  }

  /** Every effect takes place that comes up in settling the intents of `op`. */
  ghost predicate Settles(w: World, op: OpId, io: Io) {
    forall s <- w.intents | s.op == op ::
      match w.intents[s]
      case Staged => (s in w.trash ==> io(Back(s)) == Done) && io(Abort(op)) == Done
      case Committed => ClearsAway(w, s, io) && io(Finalize(op)) == Done
  }

  /** Whatever belongs to other operations is as it was, and of `op` only some has gone. */
  ghost predicate OthersSame(w: World, v: World, op: OpId) {
    Less(w, v) && forall other | other != op :: SameOf(w, v, other)
  }

  /** Whatever belongs to `op` is where it was. */
  ghost predicate SameOf(w: World, v: World, op: OpId) {
    && (forall key :: Slot(op, key) in w.trash <==> Slot(op, key) in v.trash)
    && (forall key :: Slot(op, key) in w.markers <==> Slot(op, key) in v.markers)
    && (forall key :: Slot(op, key) in w.intents <==> Slot(op, key) in v.intents)
  }

  ghost predicate Less(w: World, v: World) {
    && v.trash.Keys <= w.trash.Keys && v.markers <= w.markers
    && (forall s <- v.intents :: s in w.intents && v.intents[s] == w.intents[s])
    && (forall k <- v.leases :: k in w.leases && v.leases[k] == w.leases[k])
  }

  /** Settles the intents `mine` of one operation, refusing to guess when they disagree. */
  method SettleOperation(store: AppStore, disk: Disk, op: OpId, mine: set<Slot>, io: Io) returns (st: Status)
    requires Sound(View(store, disk))
    requires mine == (set s | s in store.intents && s.op == op)
    modifies store, disk`source, disk`trash, disk`markers
    ensures Kept(old(View(store, disk)), View(store, disk)) && OthersSame(old(View(store, disk)), View(store, disk), op)
    ensures st == Fine && mine != {} ==> Settled(old(View(store, disk)), View(store, disk), op)
    ensures Uniform(old(View(store, disk))) && Placeable(old(View(store, disk))) ==>
      (st == Fine <==> Settles(old(View(store, disk)), op, io))
    ensures NoHalt(io) ==> st != Crashed
  {
    if mine == {} {
      assert forall s <- store.intents :: s.op == op ==> s in mine;
      KeptSame(View(store, disk));
      return Fine;
    }
    if exists s <- mine, t <- mine :: store.intents[s] != store.intents[t] {
      KeptSame(View(store, disk));
      return Failed;
    }
    var first :| first in mine;
    if store.intents[first] == Staged {
      st := SettleStaged(store, disk, op, mine, io);
    } else {
      st := SettleCommitted(store, disk, op, mine, io);
    }
  }

  method SettleStaged(store: AppStore, disk: Disk, op: OpId, mine: set<Slot>, io: Io) returns (st: Status)
    requires Sound(View(store, disk)) && mine != {}
    requires mine == (set s | s in store.intents && s.op == op) && forall s <- mine :: store.intents[s] == Staged
    modifies store, disk`source, disk`trash
    ensures Kept(old(View(store, disk)), View(store, disk)) && OthersSame(old(View(store, disk)), View(store, disk), op)
    ensures st == Fine ==> Settled(old(View(store, disk)), View(store, disk), op)
    ensures Placeable(old(View(store, disk))) ==>
      (st == Fine <==> (forall s <- mine | s in old(disk.trash) :: io(Back(s)) == Done) && io(Abort(op)) == Done)
    ensures NoHalt(io) ==> st != Crashed
  {
    ghost var w := View(store, disk);
    st := RestoreAll(store, disk, mine, io);
    ghost var v := View(store, disk);
    if st == Fine {
      assert forall s <- v.intents | s.op == op :: s in mine;
      DropIntentsKeepsFate(v, op, Staged);
      st := store.AbortLibraryDelete(op, io(Abort(op)));
      KeptTwice(w, v, View(store, disk));
    }
    OneSettled(w, v, View(store, disk), op, mine, Staged, st == Fine);
  }

  method SettleCommitted(store: AppStore, disk: Disk, op: OpId, mine: set<Slot>, io: Io) returns (st: Status)
    requires Sound(View(store, disk)) && mine != {}
    requires mine == (set s | s in store.intents && s.op == op) && forall s <- mine :: store.intents[s] == Committed
    modifies store, disk`trash, disk`markers
    ensures Kept(old(View(store, disk)), View(store, disk)) && OthersSame(old(View(store, disk)), View(store, disk), op)
    ensures st == Fine ==> Settled(old(View(store, disk)), View(store, disk), op)
    ensures st == Fine <==>
      (forall s <- mine :: ClearsAway(old(View(store, disk)), s, io)) && io(Finalize(op)) == Done
    ensures NoHalt(io) ==> st != Crashed
  {
    ghost var w := View(store, disk);
    st := ClearAll(store, disk, mine, io);
    ghost var v := View(store, disk);
    if st == Fine {
      assert forall s <- v.intents | s.op == op :: s in mine;
      DropIntentsKeepsFate(v, op, Committed);
      st := store.FinalizeLibraryDelete(op, io(Finalize(op)));
      KeptTwice(w, v, View(store, disk));
    }
    OneSettled(w, v, View(store, disk), op, mine, Committed, st == Fine);
  }

  lemma OneSettled(w: World, v: World, u: World, op: OpId, mine: set<Slot>, phase: Phase, done: bool)
    requires mine == (set s | s in w.intents && s.op == op) && forall s <- mine :: w.intents[s] == phase
    requires OnlyMine(w, v, mine) && v.intents == w.intents && v.leases == w.leases
    requires done ==> mine !! v.trash.Keys
    requires u == if done then DropIntents(v, op, phase) else v
    ensures OthersSame(w, u, op)
    ensures done ==> Settled(w, u, op)
  {
    forall other | other != op ensures SameOf(w, u, other) {
      assert forall key :: Slot(other, key) !in mine;
    }
  }

  /** Only slots of `mine` have gone from the disk. */
  ghost predicate OnlyMine(w: World, v: World, mine: set<Slot>) {
    && (forall s | s !in mine :: s in w.trash <==> s in v.trash)
    && (forall s | s !in mine :: s in w.markers <==> s in v.markers)
    && v.trash.Keys <= w.trash.Keys && v.markers <= w.markers
  }

  method RestoreAll(store: AppStore, disk: Disk, mine: set<Slot>, io: Io) returns (st: Status)
    requires Sound(View(store, disk))
    requires forall s <- mine :: s in store.intents && store.intents[s] == Staged
    modifies disk`source, disk`trash
    ensures Kept(old(View(store, disk)), View(store, disk)) && OnlyMine(old(View(store, disk)), View(store, disk), mine)
    ensures st == Fine ==> mine !! disk.trash.Keys
    ensures Placeable(old(View(store, disk))) ==>
      (st == Fine <==> forall s <- mine | s in old(disk.trash) :: io(Back(s)) == Done)
    ensures NoHalt(io) ==> st != Crashed
  {
    ghost var w0 := View(store, disk);
    var todo := mine;
    while todo != {}
      invariant MineDone(w0, View(store, disk), mine, todo)
      invariant Placeable(w0) ==> forall s <- mine - todo | s in w0.trash :: io(Back(s)) == Done
      decreases todo
    {
      var s :| s in todo;
      ghost var w := View(store, disk);
      st := PutBack(store, disk, s, io);
      OneDone(w0, w, View(store, disk), mine, todo, s);
      if st != Fine {
        return;
      }
      todo := todo - {s};
    }
    return Fine;
  }

  /** Of the slots `mine`, all but those of `todo` are off the disk. */
  ghost predicate MineDone(w: World, v: World, mine: set<Slot>, todo: set<Slot>) {
    && todo <= mine && Kept(w, v) && OnlyMine(w, v, mine - todo)
    && (mine - todo) !! v.trash.Keys
  }

  lemma OneDone(w: World, v: World, u: World, mine: set<Slot>, todo: set<Slot>, s: Slot)
    requires MineDone(w, v, mine, todo) && s in todo
    requires Kept(v, u) && OnlyMine(v, u, {s})
    ensures Kept(w, u) && OnlyMine(w, u, mine)
    ensures s !in u.trash ==> MineDone(w, u, mine, todo - {s})
    ensures s in v.trash <==> s in w.trash
    ensures s in v.markers <==> s in w.markers
  {
    KeptTwice(w, v, u);
  }

  method ClearAll(store: AppStore, disk: Disk, mine: set<Slot>, io: Io) returns (st: Status)
    requires Sound(View(store, disk))
    requires forall s <- mine :: IsCommitted(View(store, disk), s)
    modifies disk`trash, disk`markers
    ensures Kept(old(View(store, disk)), View(store, disk)) && OnlyMine(old(View(store, disk)), View(store, disk), mine)
    ensures st == Fine ==> mine !! disk.trash.Keys
    ensures st == Fine <==> forall s <- mine :: ClearsAway(old(View(store, disk)), s, io)
    ensures NoHalt(io) ==> st != Crashed
  {
    ghost var w0 := View(store, disk);
    var todo := mine;
    while todo != {}
      invariant MineDone(w0, View(store, disk), mine, todo)
      invariant forall s <- mine - todo :: ClearsAway(w0, s, io)
      decreases todo
    {
      ghost var w := View(store, disk);
      var s :| s in todo;
      st := ClearOne(store, disk, s, io);
      OneDone(w0, w, View(store, disk), mine, todo, s);
      if st != Fine {
        assert !ClearsAway(w0, s, io);
        return;
      }
      todo := todo - {s};
    }
    return Fine;
  }

  method ClearOne(store: AppStore, disk: Disk, s: Slot, io: Io) returns (st: Status)
    requires Sound(View(store, disk)) && IsCommitted(View(store, disk), s)
    modifies disk`trash, disk`markers
    ensures Kept(old(View(store, disk)), View(store, disk)) && OnlyMine(old(View(store, disk)), View(store, disk), {s})
    ensures st == Fine ==> s !in disk.trash && s !in disk.markers
    ensures st == Fine <==> ClearsAway(old(View(store, disk)), s, io)
    ensures NoHalt(io) ==> st != Crashed
  {
    ghost var w := View(store, disk);
    st := disk.RemoveDirIfExists(s, io(Clear(s)));
    if st == Fine {
      st := disk.RemoveMarkerIfExists(s, io(Unmark(s)));
    }
    CleaningKeepsFate(w, View(store, disk), s);
  }

  ghost predicate Orphaned(w: World, k: Key) {
    k in w.leases && w.leases[k].kind == Delete && forall s <- w.intents :: s.op != w.leases[k].op
  }

  /** Releases exactly the delete leases whose operation has no intent. */
  method ReleaseOrphanLeases(store: AppStore, disk: Disk, io: Io) returns (st: Status)
    requires Sound(View(store, disk))
    modifies store`leases
    ensures Kept(old(View(store, disk)), View(store, disk))
    ensures forall k <- old(store.leases) | !Orphaned(old(View(store, disk)), k) ::
      k in store.leases && store.leases[k] == old(store.leases)[k]
    ensures forall k <- store.leases :: k in old(store.leases) && store.leases[k] == old(store.leases)[k]
    ensures st == Fine ==> forall k <- store.leases :: !Orphaned(old(View(store, disk)), k)
    ensures st == Fine <==>
      && io(Read(2)) == Done
      && forall k <- old(store.leases) | Orphaned(old(View(store, disk)), k) ::
           io(Release(old(store.leases)[k].op)) == Done
    ensures NoHalt(io) ==> st != Crashed
  {
    if io(Read(2)) != Done {
      return StatusOf(io(Read(2)));
    }
    ghost var w := View(store, disk);
    var referenced := set s | s in store.intents :: s.op;
    var orphans := set k | k in store.leases && store.leases[k].kind == Delete && store.leases[k].op !in referenced
                     :: store.leases[k].op;
    assert forall k <- w.leases :: Orphaned(w, k) <==> w.leases[k].op in orphans;
    assert forall op <- orphans :: exists k <- w.leases :: Orphaned(w, k) && w.leases[k].op == op;
    st := ReleaseOperations(store, orphans, io);
    FewerLeasesKeepFate(w, View(store, disk));
  }

  /** Releases the leases of several operations, one operation at a time. */
  method ReleaseOperations(store: AppStore, ops: set<OpId>, io: Io) returns (st: Status)
    modifies store`leases
    ensures forall k <- store.leases :: k in old(store.leases) && store.leases[k] == old(store.leases)[k]
    ensures forall k <- old(store.leases) | old(store.leases)[k].op !in ops :: k in store.leases
    ensures st == Fine ==> forall k <- store.leases :: store.leases[k].op !in ops
    ensures st == Fine <==> forall op <- ops :: io(Release(op)) == Done
    ensures NoHalt(io) ==> st != Crashed
  {
    var todo := ops;
    while todo != {}
      invariant todo <= ops
      invariant forall k <- store.leases :: k in old(store.leases) && store.leases[k] == old(store.leases)[k]
      invariant forall k <- old(store.leases) | old(store.leases)[k].op !in ops :: k in store.leases
      invariant forall k <- store.leases :: store.leases[k].op !in ops - todo
      invariant forall op <- ops - todo :: io(Release(op)) == Done
      decreases todo
    {
      var op :| op in todo;
      st := store.ReleaseOperationLeases(op, io(Release(op)));
      if st != Fine {
        return;
      }
      todo := todo - {op};
    }
    return Fine;
  }

  method SettleAllOperations(store: AppStore, disk: Disk, io: Io) returns (st: Status)
    requires Sound(View(store, disk))
    modifies store, disk`source, disk`trash, disk`markers
    ensures Kept(old(View(store, disk)), View(store, disk)) && Less(old(View(store, disk)), View(store, disk))
    ensures st == Fine ==> store.intents == map[]
    ensures st == Fine ==>
      forall op | HasIntent(old(View(store, disk)), op) :: Settled(old(View(store, disk)), View(store, disk), op)
    ensures old(store.intents) == map[] ==> View(store, disk) == old(View(store, disk))
    ensures Uniform(old(View(store, disk))) && Placeable(old(View(store, disk))) ==>
      (st == Fine <==> forall op | HasIntent(old(View(store, disk)), op) :: Settles(old(View(store, disk)), op, io))
    ensures NoHalt(io) ==> st != Crashed
  {
    ghost var w0 := View(store, disk);
    var ops := set s | s in store.intents :: s.op;
    KeptSame(w0);
    assert forall op :: op in ops <==> HasIntent(w0, op);
    while ops != {}
      invariant OperationsDone(w0, View(store, disk), ops, io)
      invariant old(store.intents) == map[] ==> ops == {} && View(store, disk) == w0
      decreases ops
    {
      var op :| op in ops;
      ghost var w := View(store, disk);
      var mine := set s | s in store.intents && s.op == op;
      StillThere(w0, w, op);
      st := SettleOperation(store, disk, op, mine, io);
      OperationDone(w0, w, View(store, disk), ops, op, st == Fine, io);
      if st != Fine {
        return;
      }
      ops := ops - {op};
    }
    assert forall s <- store.intents :: HasIntent(w0, s.op);
    return Fine;
  }

  ghost predicate HasIntent(w: World, op: OpId) {
    exists s <- w.intents :: s.op == op
  }

  /** Nothing of the intents of `op` is left. */
  ghost predicate Settled(w: World, v: World, op: OpId) {
    && (forall s <- w.intents | s.op == op :: s !in v.trash && s !in v.intents)
    && forall k <- v.leases :: v.leases[k].op != op
  }

  /** The operations with intents other than those of `ops` have been settled. */
  ghost predicate OperationsDone(w: World, v: World, ops: set<OpId>, io: Io) {
    && Kept(w, v) && Less(w, v)
    && (forall op <- ops :: HasIntent(w, op) && SameOf(w, v, op))
    && (forall op | HasIntent(w, op) && op !in ops :: Settled(w, v, op))
    && (Uniform(w) && Placeable(w) ==> forall op | HasIntent(w, op) && op !in ops :: Settles(w, op, io))
  }

  lemma StillThere(w: World, v: World, op: OpId)
    requires HasIntent(w, op) && SameOf(w, v, op)
    ensures (set s | s in v.intents && s.op == op) != {}
  {
    var mine := set s | s in v.intents && s.op == op;
    var s :| s in w.intents && s.op == op;
    assert s == Slot(op, s.key) && Slot(op, s.key) in v.intents;
    assert s in mine;
  }

  lemma SameSettles(w: World, v: World, op: OpId, io: Io)
    requires SameOf(w, v, op) && Less(w, v)
    ensures Settles(w, op, io) <==> Settles(v, op, io)
  {
    assert forall key :: ClearsAway(w, Slot(op, key), io) <==> ClearsAway(v, Slot(op, key), io);
    assert forall s: Slot | s.op == op :: s == Slot(op, s.key);
  }

  lemma OperationDone(w: World, v: World, u: World, ops: set<OpId>, op: OpId, fine: bool, io: Io)
    requires OperationsDone(w, v, ops, io) && op in ops
    requires Kept(v, u) && OthersSame(v, u, op)
    requires fine ==> Settled(v, u, op)
    requires Uniform(v) && Placeable(v) ==> (fine <==> Settles(v, op, io))
    ensures Kept(w, u) && Less(w, u)
    ensures fine ==> OperationsDone(w, u, ops - {op}, io)
    ensures Uniform(w) && Placeable(w) && !fine ==> HasIntent(w, op) && !Settles(w, op, io)
  {
    KeptTwice(w, v, u);
    SameSettles(w, v, op, io);
    if fine {
      forall other | HasIntent(w, other) && other !in ops - {op} ensures Settled(w, u, other) {
        SettledStays(w, v, u, other, op);
      }
      forall other | other in ops - {op} ensures SameOf(w, u, other) {
        assert SameOf(w, v, other) && SameOf(v, u, other);
      }
    }
  }

  lemma SettledStays(w: World, v: World, u: World, other: OpId, op: OpId)
    requires Less(v, u)
    requires if other == op then SameOf(w, v, op) && Settled(v, u, op) else Settled(w, v, other)
    ensures Settled(w, u, other)
  {
    assert forall s: Slot | s.op == other :: s == Slot(other, s.key);
  }

  datatype Recovery = Recovered | Incomplete | Interrupted

  /** Every effect that a recovery comes to takes place. */
  ghost predicate Recovers(w: World, folders: set<OpId>, io: Io) {
    && io(Read(0)) == Done && io(Read(1)) == Done && io(Read(2)) == Done
    && (forall op | HasIntent(w, op) :: Settles(w, op, io))
    && (forall s <- w.markers | !IsCommitted(w, s) :: GoesBack(w, s, io))
    && (forall op | Folder(w, folders, op) :: io(Sweep(op)) == Done)
    && (forall k <- w.leases | Orphaned(w, k) :: io(Release(w.leases[k].op)) == Done)
  }

  lemma SmoothRecovers(w: World, folders: set<OpId>, io: Io)
    requires Smooth(io)
    ensures Recovers(w, folders, io)
  {
  }

  /** Reconciles all intents and unreferenced markers at startup: staged work rolls back, committed work
    * is finished, and then delete leases without an intent are released.
    *
    * Whatever happens to the effects, and wherever the process dies, the fate is kept; a run that comes
    * to its end leaves nothing of any deletion, and it does come to its end if every effect that it comes
    * to takes place. */
  method RecoverPendingDeletes(store: AppStore, disk: Disk, io: Io) returns (r: Recovery)
    requires Sound(View(store, disk))
    modifies store, disk
    ensures Kept(old(View(store, disk)), View(store, disk))
    ensures r == Recovered ==> Quiet(View(store, disk)) && forall op <- disk.folders :: disk.Inhabited(op)
    ensures Quiet(old(View(store, disk))) ==> View(store, disk) == old(View(store, disk))
    ensures Uniform(old(View(store, disk))) && Placeable(old(View(store, disk))) &&
            Recovers(old(View(store, disk)), old(disk.folders), io) ==>
      r == Recovered
    ensures NoHalt(io) ==> r != Interrupted
  {
    if io(Read(0)) != Done {
      return Ended(StatusOf(io(Read(0))));
    }
    ghost var w0 := View(store, disk);
    var st := SettleAllOperations(store, disk, io);
    if st != Fine {
      return Ended(st);
    }
    ghost var w1 := View(store, disk);
    GoesOn(w0, w1, disk.folders, io);
    r := RecoverRest(store, disk, io);
    KeptTwice(w0, w1, View(store, disk));
  }

  /** Once the intents are settled: markers, and then leases. */
  method RecoverRest(store: AppStore, disk: Disk, io: Io) returns (r: Recovery)
    requires Sound(View(store, disk)) && store.intents == map[]
    modifies store`leases, disk
    ensures Kept(old(View(store, disk)), View(store, disk))
    ensures r == Recovered ==> Quiet(View(store, disk)) && forall op <- disk.folders :: disk.Inhabited(op)
    ensures Quiet(old(View(store, disk))) ==> View(store, disk) == old(View(store, disk))
    ensures Placeable(old(View(store, disk))) && Scans(old(View(store, disk)), old(disk.folders), io) &&
            io(Read(2)) == Done &&
            (forall k <- old(store.leases) | Orphaned(old(View(store, disk)), k) ::
               io(Release(old(store.leases)[k].op)) == Done) ==>
      r == Recovered
    ensures NoHalt(io) ==> r != Interrupted
  {
    ghost var w1 := View(store, disk);
    var st := RecoverOrphanMarkers(store, disk, io);
    if st != Fine {
      return Ended(st);
    }
    ghost var w2 := View(store, disk);
    assert forall k :: Orphaned(w1, k) <==> Orphaned(w2, k);
    st := ReleaseOrphanLeases(store, disk, io);
    KeptTwice(w1, w2, View(store, disk));
    r := Ended(st);
  }

  lemma GoesOn(w: World, v: World, folders: set<OpId>, io: Io)
    requires Kept(w, v) && Less(w, v) && v.intents == map[]
    requires forall op | HasIntent(w, op) :: Settled(w, v, op)
    ensures Recovers(w, folders, io) ==>
      && Scans(v, folders, io)
      && forall k <- v.leases | Orphaned(v, k) :: io(Release(v.leases[k].op)) == Done
  {
    assert forall op | Folder(v, folders, op) :: Folder(w, folders, op);
    forall k | k in v.leases && Orphaned(v, k) ensures Orphaned(w, k) {
      assert forall s <- w.intents :: HasIntent(w, s.op);
    }
    if Recovers(w, folders, io) {
      forall s | s in v.markers ensures GoesBack(v, s, io) {
        if s in w.intents {
          assert HasIntent(w, s.op) && Settles(w, s.op, io) && Settled(w, v, s.op);
        }
      }
    }
  }

  function Ended(st: Status): Recovery {
    match st
    case Fine => Recovered
    case Failed => Incomplete
    case Crashed => Interrupted
  }
}
